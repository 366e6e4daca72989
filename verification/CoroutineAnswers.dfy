/** Where every answer to an await comes from. */
module CoroutineAnswers {
  import opened Text
  import opened Coroutines
  import opened CoroutineInvariants
  import opened CoroutineSteps
  import opened CoroutineRuns

  // ---- What a step does to the awaits --------------------------------------

  /** `w` is new in `r`, or its outcome is: what the step `a` has to do with it. */
  predicate Change(s: State, a: Action, r: State, w: Id) {
    w in r.wrappers &&
    match a
    case AwaitTask(l, child) =>
      && OnThread(s, l) && child in s.frames && w == s.next
      && r.wrappers[w].client == Top(s, l) && r.wrappers[w].target == OnTask(child)
      && r.wrappers[w].suspended == r.wrappers[w].outcome.None?
      && (if s.frames[child].phase.Finished? then
            child in s.results && r.wrappers[w].outcome == Some(s.results[child])
          else r.wrappers[w].outcome == if s.frames[child].parent.Some? then Some(DoubleAwait) else None)
    case AwaitFuture(l, _) =>
      && OnThread(s, l) && w == s.next && r.wrappers[w].client == Top(s, l) && r.wrappers[w].target.OnFuture?
      && r.wrappers[w].suspended == r.wrappers[w].outcome.None?
    case Return(l, o) =>
      && OnThread(s, l) && w in s.wrappers && r.wrappers[w].target == OnTask(Top(s, l))
      && r.wrappers[w].outcome == Some(o)
    case Resolve(l, _, _) => w in s.wrappers && r.wrappers[w].target.OnFuture?
    case other => false
  }

  ghost predicate Changes(s: State, a: Action, r: State) {
    && (forall w :: w in r.wrappers && (w !in s.wrappers || r.wrappers[w].outcome != s.wrappers[w].outcome) ==>
          Change(s, a, r, w))
    && (a.Return? ==> OnThread(s, a.l) && Top(s, a.l) in r.results && r.results[Top(s, a.l)] == a.o)
    && (forall c :: c in r.results && c !in s.results ==> a.Return? && OnThread(s, a.l) && c == Top(s, a.l))
  }

  /** `r` has the awaits, outcomes and results of `s`. */
  ghost predicate Alike(s: State, r: State) {
    && r.wrappers.Keys == s.wrappers.Keys && r.results == s.results
    && forall w :: w in s.wrappers ==>
         && r.wrappers[w].outcome == s.wrappers[w].outcome && r.wrappers[w].target == s.wrappers[w].target
         && r.wrappers[w].client == s.wrappers[w].client && r.wrappers[w].suspended == s.wrappers[w].suspended
  }

  lemma EnterIsAlike(s: State, l: nat, f: Id)
    requires l < |s.stacks| && Resumable(s, f) && s.frames[f].loop < |s.queues|
    ensures Alike(s, Enter(s, l, f))
  {
  }

  lemma AlikeChanges(s: State, a: Action, s1: State, r: State)
    requires Changes(s, a, s1) && Alike(s1, r)
    ensures Changes(s, a, r)
  {
    forall w | w in r.wrappers && (w !in s.wrappers || r.wrappers[w].outcome != s.wrappers[w].outcome)
      ensures Change(s, a, r, w)
    {
      assert Change(s, a, s1, w);
    }
  }

  lemma NothingChanges(s: State, a: Action, r: State)
    requires Alike(s, r) && !a.Return?
    ensures Changes(s, a, r)
  {
  }

  lemma AwaitTaskChanges(s: State, l: nat, child: Id)
    requires Links(s) && AwaitTaskReady(s, l, child) && child != Top(s, l)
    ensures Changes(s, AwaitTask(l, child), AwaitTaskStep(s, l, child))
  {
    var a := AwaitTask(l, child);
    var frame := s.frames[child];
    if !frame.phase.Finished? && frame.parent.None? {
      BlockedChanges(s, l, child);
      if frame.phase.Initial? {
        hide Blocked, Changes;
        BlockedStacks(s, l, child);
        EnterIsAlike(Blocked(s, l, child), l, child);
        AlikeChanges(s, a, Blocked(s, l, child), AwaitTaskStep(s, l, child));
      }
    }
  }

  lemma BlockedChanges(s: State, l: nat, child: Id)
    requires Links(s) && AwaitTaskReady(s, l, child) && child != Top(s, l)
    requires !s.frames[child].phase.Finished? && s.frames[child].parent.None?
    ensures Changes(s, AwaitTask(l, child), Blocked(s, l, child))
  {
  }

  lemma AwaitFutureChanges(s: State, l: nat, u: nat)
    requires Links(s) && OnThread(s, l) && FutureLogged(s, u)
    ensures Changes(s, AwaitFuture(l, u), AwaitFutureStep(s, l, u))
  {
  }

  lemma ReturnChanges(s: State, l: nat, o: Outcome)
    requires Links(s) && OnThread(s, l) && ParentReady(s, Top(s, l)) && s.frames[Top(s, l)].phase.Running?
    ensures Changes(s, Return(l, o), ReturnStep(s, l, o))
  {
    var parent := s.frames[Top(s, l)].parent;
    EndedChanges(s, l, o);
    if parent.Some? {
      hide Ended, Changes;
      ParentIsNext(s, l, o);
      EnterIsAlike(Ended(s, l, o), l, s.wrappers[parent.value].client);
      AlikeChanges(s, Return(l, o), Ended(s, l, o), ReturnStep(s, l, o));
    }
  }

  lemma EndedChanges(s: State, l: nat, o: Outcome)
    requires Links(s) && OnThread(s, l) && ParentReady(s, Top(s, l)) && s.frames[Top(s, l)].phase.Running?
    ensures Changes(s, Return(l, o), Ended(s, l, o))
  {
    var f := Top(s, l);
    if s.frames[f].parent.Some? {
      assert ParentLink(s, f, s.frames[f].parent.value);
    }
  }

  lemma ResolveChanges(s: State, l: nat, u: nat, o: Outcome)
    requires Links(s) && l < |s.stacks| && u < |s.futures| && s.futures[u].value.None? && WaiterLoopKnown(s, u)
    ensures Changes(s, Resolve(l, u, o), ResolveStep(s, l, u, o))
  {
    SettledChanges(s, l, u, o);
    if LiveWaiter(s, u) {
      hide Settled, Changes;
      WaiterIsNext(s, u, o);
      EnterIsAlike(Settled(s, u, o), l, s.wrappers[s.futures[u].waiter.value].client);
      AlikeChanges(s, Resolve(l, u, o), Settled(s, u, o), ResolveStep(s, l, u, o));
    }
  }

  lemma SettledChanges(s: State, l: nat, u: nat, o: Outcome)
    requires Links(s) && u < |s.futures| && s.futures[u].value.None?
    ensures Changes(s, Resolve(l, u, o), Settled(s, u, o))
  {
    if LiveWaiter(s, u) {
      assert WaiterLink(s, u, s.futures[u].waiter.value);
    }
  }

  lemma DispatchIsAlike(s: State, l: nat, i: nat)
    requires EntryReady(s, l, i) && l < |s.stacks|
    ensures Alike(s, DispatchStep(s, l, i))
  {
  }

  lemma SleepIsAlike(s: State, l: nat)
    requires OnThread(s, l) && LoopKnown(s, Top(s, l))
    ensures Alike(s, SleepStep(s, l))
  {
  }

  /** A step adds an await or answers one only as `Change` says. */
  lemma StepChanges(s: State, a: Action)
    requires Inv(s, None) && Enabled(s, a)
    ensures Changes(s, a, Step(s, a))
  {
    hide Queues, Stacks, Links, Acyclic, Deliveries, WaitsFor, Enter, Changes;
    hide AwaitTaskStep, AwaitFutureStep, ReturnStep, ResolveStep, DispatchStep, SleepStep, ParentReady;
    StepKeeps(s, a);
    match a
    case AwaitTask(l, child) =>
      NotItself(s, child, Top(s, l));
      AwaitTaskChanges(s, l, child);
    case AwaitFuture(l, u) => AwaitFutureChanges(s, l, u);
    case Return(l, o) =>
      TopRuns(s, l);
      ReturnChanges(s, l, o);
    case Resolve(l, u, o) => ResolveChanges(s, l, u, o);
    case Start(l, f) =>
      EnterIsAlike(s, l, f);
      NothingChanges(s, a, Step(s, a));
    case Dispatch(l, i) =>
      DispatchIsAlike(s, l, i);
      NothingChanges(s, a, Step(s, a));
    case Sleep(l) =>
      SleepIsAlike(s, l);
      NothingChanges(s, a, Step(s, a));
    case Create(loop) => NothingChanges(s, a, Step(s, a));
    case NewFuture => NothingChanges(s, a, Step(s, a));
    case Reset(u) => NothingChanges(s, a, Step(s, a));
    case Destroy(fs) => NothingChanges(s, a, Step(s, a));
  }

  // ---- Every answer is justified -------------------------------------------

  /** `v` had to wait for `c`. */
  predicate WaitedOn(s: State, v: Id, c: Id) {
    v in s.wrappers && s.wrappers[v].target == OnTask(c) && s.wrappers[v].suspended
  }

  /** An await that had to wait is answered with the result of its task and nothing else;
      one that had not, with that or, when an earlier await had to wait for the same task,
      with the error of a second await. */
  ghost predicate Justified(s: State, w: Id)
    requires w in s.wrappers
  {
    var wrapper := s.wrappers[w];
    && (wrapper.outcome.None? ==> wrapper.suspended)
    && (wrapper.target.OnTask? && wrapper.outcome.Some? ==>
          var c := wrapper.target.child;
          || (c in s.results && s.results[c] == wrapper.outcome.value)
          || (wrapper.outcome.value == DoubleAwait && !wrapper.suspended && exists v: Id :: v < w && WaitedOn(s, v, c)))
  }

  ghost predicate Answers(s: State) {
    forall w :: w in s.wrappers ==> Justified(s, w)
  }

  lemma StillJustified(s: State, r: State, w: Id)
    requires Final(s, r) && w in s.wrappers && Justified(s, w)
    requires r.wrappers[w].outcome == s.wrappers[w].outcome
    ensures Justified(r, w)
  {
    forall v, c | WaitedOn(s, v, c)
      ensures WaitedOn(r, v, c)
    {
    }
  }

  lemma ChangeIsJustified(s: State, a: Action, r: State, w: Id)
    requires Links(s) && Answers(s) && Final(s, r) && Changes(s, a, r) && Change(s, a, r, w)
    requires a.Resolve? ==> r.wrappers[w].outcome.Some? || r.wrappers[w].suspended
    ensures Justified(r, w)
  {
    if a.AwaitTask? && !s.frames[a.child].phase.Finished? && s.frames[a.child].parent.Some? {
      var v := s.frames[a.child].parent.value;
      assert ParentLink(s, a.child, v);
      assert Justified(s, v);
      assert WaitedOn(r, v, a.child);
    }
  }

  lemma StepKeepsAnswers(s: State, a: Action)
    requires Inv(s, None) && Answers(s) && Enabled(s, a)
    ensures Answers(Step(s, a))
  {
    hide Step, Stacks, Queues, Deliveries, Acyclic, Links, Justified, Enabled;
    var r := Step(s, a);
    StepChanges(s, a);
    OutcomesAreFinal(s, a);
    forall w | w in r.wrappers
      ensures Justified(r, w)
    {
      if w in s.wrappers && r.wrappers[w].outcome == s.wrappers[w].outcome {
        StillJustified(s, r, w);
      } else {
        ChangeIsJustified(s, a, r, w);
      }
    }
  }

  lemma {:induction false} RunKeepsAnswers(s: State, actions: seq<Action>)
    requires Inv(s, None) && Answers(s)
    ensures Answers(Run(s, actions))
    decreases |actions|
  {
    hide Inv, Answers, Enabled, Step;
    if actions != [] {
      if Enabled(s, actions[0]) {
        StepKeepsAnswers(s, actions[0]);
      }
      RunKeepsAnswers(if Enabled(s, actions[0]) then Step(s, actions[0]) else s, actions[1..]);
    }
  }

  lemma EveryAnswer(loops: nat, actions: seq<Action>)
    ensures Answers(Reached(loops, actions))
  {
    hide Inv, Run;
    InitiallyHolds(loops);
    RunKeepsAnswers(Initially(loops), actions);
  }

  /** Every await that had to wait is answered with exactly the outcome of its task; one that
      had not, with that or, only if another await had to wait for the same task before it,
      with the error of a second await; an await of a future with the value of its epoch.
      Its coroutine goes on with the answer at most once: exactly once unless it is still
      suspended or destroyed. */
  lemma DeliveredOnce(loops: nat, actions: seq<Action>, w: Id, o: Outcome)
    requires var s := Reached(loops, actions); w in s.wrappers && s.wrappers[w].outcome == Some(o)
    ensures var s := Reached(loops, actions);
            var wrapper := s.wrappers[w];
            && (wrapper.target.OnTask? ==>
                  var c := wrapper.target.child;
                  || (c in s.results && o == s.results[c])
                  || (o == DoubleAwait && !wrapper.suspended && exists v: Id :: v < w && WaitedOn(s, v, c)))
            && (wrapper.target.OnFuture? ==>
                  var (u, e) := (wrapper.target.future, wrapper.target.epoch);
                  u < |s.futures| && e < |s.futures[u].log| && o == s.futures[u].log[e])
            && wrapper.taken <= 1
            && (wrapper.client in s.frames ==>
                  if wrapper.taken == 0 then
                    && s.frames[wrapper.client].phase == Awaiting(w)
                    && LoopKnown(s, wrapper.client) && wrapper.client in s.queues[s.frames[wrapper.client].loop]
                  else s.frames[wrapper.client].phase != Awaiting(w))
  {
    hide Reached, Stacks, Links, Acyclic;
    EveryReachedState(loops, actions);
    EveryAnswer(loops, actions);
    var s := Reached(loops, actions);
    assert Justified(s, w) && Delivered(s, s.wrappers[w], w);
    if s.wrappers[w].client in s.frames && s.wrappers[w].taken == 0 {
      assert Due(s, s.wrappers[w].client);
    }
  }

  /** An await of a task that has not finished is refused if and only if somebody is waiting
      for that task at that moment; otherwise it waits. */
  lemma RefusedExactly(s: State, l: nat, child: Id)
    requires Inv(s, None) && Enabled(s, AwaitTask(l, child)) && !s.frames[child].phase.Finished?
    ensures var r := Step(s, AwaitTask(l, child));
            && s.next in r.wrappers && r.wrappers[s.next].target == OnTask(child)
            && (if exists v: Id :: Awaits(s, v, child) then r.wrappers[s.next].outcome == Some(DoubleAwait)
                else r.wrappers[s.next].outcome == None)
  {
    hide Stacks, Queues, Deliveries, Acyclic, WaitsFor;
    var r := Step(s, AwaitTask(l, child));
    StepChanges(s, AwaitTask(l, child));
    NewWrapperIsThere(s, l, child);
    assert Change(s, AwaitTask(l, child), r, s.next);
    forall v | Awaits(s, v, child)
      ensures s.frames[child].parent == Some(v)
    {
      assert Link(s, s.wrappers[v].client, v);
    }
    if s.frames[child].parent.Some? {
      assert ParentLink(s, child, s.frames[child].parent.value);
      assert Awaits(s, s.frames[child].parent.value, child);
    }
  }

  lemma NewWrapperIsThere(s: State, l: nat, child: Id)
    requires Inv(s, None) && Enabled(s, AwaitTask(l, child))
    ensures s.next !in s.wrappers && s.next in Step(s, AwaitTask(l, child)).wrappers
  {
    hide Stacks, Queues, Deliveries, Acyclic, WaitsFor;
    StepKeeps(s, AwaitTask(l, child));
    if !s.frames[child].phase.Finished? && s.frames[child].parent.None? && s.frames[child].phase.Initial? {
      NotItself(s, child, Top(s, l));
      BlockedStacks(s, l, child);
      EnterIsAlike(Blocked(s, l, child), l, child);
    }
  }
}
