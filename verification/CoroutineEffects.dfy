/** What every step of the coroutine runtime does, told by threads, queues and answers: who
    runs where, what is queued on which loop, and who is left where it was. */
module CoroutineEffects {
  import opened Text
  import opened Coroutines
  import opened CoroutineInvariants
  import opened CoroutineSteps
  import opened CoroutineRuns

  // ---- Where control goes --------------------------------------------------

  /** Thread `l` is left with `stack`, the other threads and all queues as they were. */
  predicate OnlyThread(s: State, r: State, l: nat, stack: seq<Id>) {
    l < |s.stacks| && r.stacks == s.stacks[l := stack] && r.queues == s.queues
  }

  /** Exactly loop `k` has one more resumption deferred, behind all others: that of `f`. */
  predicate OnlyQueued(s: State, r: State, k: nat, f: Id) {
    k < |s.queues| && r.queues == s.queues[k := s.queues[k] + [f]]
  }

  /** Thread `l`, down to `below`, goes on with `f` if `f` belongs to its loop: at once, with
      nothing queued. Otherwise `f` stays as it is and its own loop is asked to resume it. */
  predicate HandedOver(s: State, r: State, l: nat, below: seq<Id>, f: Id) {
    && f in s.frames && f in r.frames && r.frames[f].loop == s.frames[f].loop && l < |s.stacks|
    && if s.frames[f].loop == l then OnlyThread(s, r, l, below + [f]) && r.frames[f].phase.Running?
       else
         && r.stacks == s.stacks[l := below] && OnlyQueued(s, r, s.frames[f].loop, f)
         && r.frames[f].phase == s.frames[f].phase
  }

  /** Nobody but `fs` is touched. */
  predicate OnlyFrames(s: State, r: State, fs: set<Id>) {
    r.frames.Keys == s.frames.Keys && forall f <- s.frames :: f !in fs ==> r.frames[f] == s.frames[f]
  }

  predicate OnlyWrapper(s: State, r: State, w: Id) {
    && w in r.wrappers && r.wrappers.Keys == s.wrappers.Keys + {w}
    && forall v <- s.wrappers :: v != w ==> r.wrappers[v] == s.wrappers[v]
  }

  /** What is below the innermost coroutine of thread `l`. */
  function Below(s: State, l: nat): seq<Id>
    requires OnThread(s, l)
  {
    s.stacks[l][..|s.stacks[l]| - 1]
  }

  /** `g` is suspended in `w` until future `u` is resolved. */
  predicate AwaitsFuture(s: State, w: Id, u: nat, g: Id) {
    && u < |s.futures| && w in s.wrappers && s.wrappers[w].client == g
    && s.wrappers[w].target == OnFuture(u, |s.futures[u].log|) && s.wrappers[w].outcome.None?
    && g in s.frames && s.frames[g].phase == Awaiting(w)
  }

  /** `w` has been given `o`; its client has taken it if it went on at once. */
  predicate Answered(s: State, r: State, w: Id, o: Outcome, atOnce: bool) {
    && w in s.wrappers && OnlyWrapper(s, r, w)
    && r.wrappers[w] == s.wrappers[w].(outcome := Some(o), taken := if atOnce then 1 else 0)
  }

  // ---- Entering ------------------------------------------------------------

  lemma EnterEffect(s: State, l: nat, f: Id)
    requires l < |s.stacks| && Resumable(s, f) && s.frames[f].loop < |s.queues|
    ensures var r := Enter(s, l, f);
            && HandedOver(s, r, l, s.stacks[l], f) && OnlyFrames(s, r, {f})
            && r.results == s.results && r.futures == s.futures
  {
  }

  lemma EnterTakes(s: State, l: nat, f: Id)
    requires l < |s.stacks| && Resumable(s, f) && s.frames[f].loop < |s.queues|
    ensures var r := Enter(s, l, f);
            match s.frames[f].phase
            case Awaiting(w) =>
              OnlyWrapper(s, r, w)
              && r.wrappers[w] == s.wrappers[w].(taken := s.wrappers[w].taken + if s.frames[f].loop == l then 1 else 0)
            case _ => r.wrappers == s.wrappers
  {
  }

  // ---- Starting ------------------------------------------------------------

  /** A task started from its own loop's thread runs there and then; one of another loop is
      left to that loop. */
  lemma StartEffect(s: State, l: nat, f: Id)
    requires Inv(s, None) && Enabled(s, Start(l, f))
    ensures var r := Step(s, Start(l, f));
            && HandedOver(s, r, l, s.stacks[l], f) && OnlyFrames(s, r, {f})
            && r.wrappers == s.wrappers && r.results == s.results && r.futures == s.futures
  {
    hide Inv, Enter;
    StepKeeps(s, Start(l, f));
    EnterEffect(s, l, f);
    EnterTakes(s, l, f);
  }

  // ---- Ending --------------------------------------------------------------

  /** A task that ends leaves its thread and its result; whoever awaits it goes on with the
      result: there and then, with nothing queued, if it belongs to the same loop, and
      through its own loop's queue if not. If nobody does, that is all. */
  lemma ReturnEffect(s: State, l: nat, o: Outcome)
    requires Inv(s, None) && Enabled(s, Return(l, o))
    ensures var f, r := Top(s, l), Step(s, Return(l, o));
            && f in r.frames && r.frames[f].phase.Finished? && r.results == s.results[f := o] && r.futures == s.futures
            && ((forall w :: !Awaits(s, w, f)) ==>
                  OnlyThread(s, r, l, Below(s, l)) && OnlyFrames(s, r, {f}) && r.wrappers == s.wrappers)
            && forall w :: Awaits(s, w, f) ==>
                 var g := s.wrappers[w].client;
                 && HandedOver(s, r, l, Below(s, l), g) && OnlyFrames(s, r, {f, g})
                 && Answered(s, r, w, o, s.frames[g].loop == l)
  {
    hide Inv, Ended, Enter, HandedOver, OnlyFrames, OnlyThread, Answered, Below, Awaits;
    StepKeeps(s, Return(l, o));
    AwaitedByParent(s, l);
    ReturnedTo(s, l, o);
  }

  /** The same, told by the parent handle. */
  lemma ReturnedTo(s: State, l: nat, o: Outcome)
    requires OnThread(s, l) && ParentReady(s, Top(s, l))
    requires s.frames[Top(s, l)].parent.Some? ==> s.wrappers[s.frames[Top(s, l)].parent.value].taken == 0
    ensures var f, r := Top(s, l), ReturnStep(s, l, o);
            && f in r.frames && r.frames[f].phase.Finished? && r.results == s.results[f := o] && r.futures == s.futures
            && match s.frames[f].parent
               case None => OnlyThread(s, r, l, Below(s, l)) && OnlyFrames(s, r, {f}) && r.wrappers == s.wrappers
               case Some(w) =>
                 var g := s.wrappers[w].client;
                 && HandedOver(s, r, l, Below(s, l), g) && OnlyFrames(s, r, {f, g})
                 && Answered(s, r, w, o, s.frames[g].loop == l)
  {
    EndedEffect(s, l, o);
    var f := Top(s, l);
    if s.frames[f].parent.Some? {
      var w := s.frames[f].parent.value;
      var g := s.wrappers[w].client;
      var s1 := Ended(s, l, o);
      hide Ended, Enter, ParentReady;
      EnterEffect(s1, l, g);
      EnterTakes(s1, l, g);
    }
  }

  /** Who awaits a running task is its parent. */
  lemma AwaitedByParent(s: State, l: nat)
    requires Inv(s, None) && OnThread(s, l)
    ensures var f := Top(s, l);
            && (s.frames[f].parent.Some? ==> Awaits(s, s.frames[f].parent.value, f))
            && (forall w :: Awaits(s, w, f) ==> s.frames[f].parent == Some(w) && s.wrappers[w].taken == 0)
  {
    hide Queues, Acyclic, Stacks;
    var f := Top(s, l);
    TopRunsNow(s, l);
    if s.frames[f].parent.Some? {
      assert ParentLink(s, f, s.frames[f].parent.value);
    }
    forall w | Awaits(s, w, f)
      ensures s.frames[f].parent == Some(w) && s.wrappers[w].taken == 0
    {
      assert Link(s, s.wrappers[w].client, w) && Delivered(s, s.wrappers[w], w);
    }
  }

  lemma EndedEffect(s: State, l: nat, o: Outcome)
    requires OnThread(s, l) && ParentReady(s, Top(s, l))
    ensures var f, r := Top(s, l), Ended(s, l, o);
            && OnlyThread(s, r, l, Below(s, l)) && OnlyFrames(s, r, {f})
            && r.frames[f] == s.frames[f].(phase := Finished)
            && r.results == s.results[f := o] && r.futures == s.futures
            && match s.frames[f].parent
               case None => r.wrappers == s.wrappers
               case Some(w) =>
                 && OnlyWrapper(s, r, w) && r.wrappers[w] == s.wrappers[w].(outcome := Some(o))
                 && Resumable(r, s.wrappers[w].client)
  {
  }

  // ---- Resolving -----------------------------------------------------------

  /** A future that is resolved keeps the value; whoever awaits it goes on with it: on the
      resolver's thread, above the resolver, if it belongs to that loop, and through its own
      loop's queue if not. If nobody does, that is all. */
  lemma ResolveEffect(s: State, l: nat, u: nat, o: Outcome)
    requires Inv(s, None) && Enabled(s, Resolve(l, u, o))
    ensures var r := Step(s, Resolve(l, u, o));
            && r.results == s.results && |r.futures| == |s.futures|
            && r.futures[u].value == Some(o) && r.futures[u].log == s.futures[u].log + [o]
            && (forall v :: 0 <= v < |s.futures| && v != u ==> r.futures[v] == s.futures[v])
            && ((forall w: Id, g: Id :: !AwaitsFuture(s, w, u, g)) ==>
                  OnlyThread(s, r, l, s.stacks[l]) && r.frames == s.frames && r.wrappers == s.wrappers)
            && forall w: Id, g: Id :: AwaitsFuture(s, w, u, g) ==>
                 && HandedOver(s, r, l, s.stacks[l], g) && OnlyFrames(s, r, {g})
                 && Answered(s, r, w, o, s.frames[g].loop == l)
  {
    hide Inv, Settled, Enter, HandedOver, OnlyFrames, OnlyThread, Answered;
    StepKeeps(s, Resolve(l, u, o));
    AwaitedByWaiter(s, u);
    ResolvedTo(s, l, u, o);
  }

  lemma AwaitedByWaiter(s: State, u: nat)
    requires Inv(s, None) && u < |s.futures| && s.futures[u].value.None?
    ensures LiveWaiter(s, u) ==>
              var w := s.futures[u].waiter.value;
              AwaitsFuture(s, w, u, s.wrappers[w].client) && s.wrappers[w].taken == 0
    ensures forall w: Id, g: Id :: AwaitsFuture(s, w, u, g) ==> LiveWaiter(s, u) && s.futures[u].waiter == Some(w)
  {
    hide Queues, Acyclic, Stacks;
    if LiveWaiter(s, u) {
      var w := s.futures[u].waiter.value;
      assert WaiterLink(s, u, w) && Delivered(s, s.wrappers[w], w);
    }
    forall w: Id, g: Id | AwaitsFuture(s, w, u, g)
      ensures LiveWaiter(s, u) && s.futures[u].waiter == Some(w)
    {
      assert Link(s, g, w);
    }
  }

  lemma ResolvedTo(s: State, l: nat, u: nat, o: Outcome)
    requires l < |s.stacks| && u < |s.futures| && WaiterLoopKnown(s, u)
    requires LiveWaiter(s, u) ==> s.wrappers[s.futures[u].waiter.value].taken == 0
    ensures var r := ResolveStep(s, l, u, o);
            && r.results == s.results && |r.futures| == |s.futures|
            && r.futures[u].value == Some(o) && r.futures[u].log == s.futures[u].log + [o]
            && (forall v :: 0 <= v < |s.futures| && v != u ==> r.futures[v] == s.futures[v])
            && if !LiveWaiter(s, u) then
                 OnlyThread(s, r, l, s.stacks[l]) && r.frames == s.frames && r.wrappers == s.wrappers
               else
                 var w := s.futures[u].waiter.value;
                 var g := s.wrappers[w].client;
                 && HandedOver(s, r, l, s.stacks[l], g) && OnlyFrames(s, r, {g})
                 && Answered(s, r, w, o, s.frames[g].loop == l)
  {
    if LiveWaiter(s, u) {
      var g := s.wrappers[s.futures[u].waiter.value].client;
      var s1 := Settled(s, u, o);
      WaiterIsNext(s, u, o);
      EnterEffect(s1, l, g);
      EnterTakes(s1, l, g);
      hide Enter;
    }
  }

  // ---- Awaiting ------------------------------------------------------------

  /** The innermost coroutine of thread `l` goes on at once with `o`, as wrapper `w` says. */
  predicate GoesOnWith(s: State, r: State, l: nat, target: Target, o: Outcome) {
    && OnThread(s, l) && r.stacks == s.stacks && r.queues == s.queues && r.frames == s.frames
    && r.wrappers == s.wrappers[s.next := Wrapper(Top(s, l), target, Some(o), 1, false)]
  }

  /** The innermost coroutine of thread `l` is suspended in a new wrapper. */
  predicate Suspends(s: State, r: State, l: nat, target: Target) {
    && OnThread(s, l) && Top(s, l) in r.frames
    && r.frames[Top(s, l)] == s.frames[Top(s, l)].(phase := Awaiting(s.next))
    && r.wrappers == s.wrappers[s.next := Wrapper(Top(s, l), target, None, 0, true)]
  }

  /** A finished task gives its result and an awaited one the error, both without a wait;
      for any other the awaiter leaves the thread, and a task nobody began is begun: on this
      thread if it belongs to its loop, through its own loop's queue if not. */
  lemma AwaitTaskEffect(s: State, l: nat, child: Id)
    requires Inv(s, None) && Enabled(s, AwaitTask(l, child))
    ensures var f, r := Top(s, l), Step(s, AwaitTask(l, child));
            && r.results == s.results && r.futures == s.futures
            && if s.frames[child].phase.Finished? then
                 child in s.results && GoesOnWith(s, r, l, OnTask(child), s.results[child])
               else if exists v :: Awaits(s, v, child) then GoesOnWith(s, r, l, OnTask(child), DoubleAwait)
               else
                 && Suspends(s, r, l, OnTask(child)) && Awaits(r, s.next, child) && OnlyFrames(s, r, {f, child})
                 && if s.frames[child].phase.Initial? then HandedOver(s, r, l, Below(s, l), child)
                    else OnlyThread(s, r, l, Below(s, l)) && r.frames[child].phase == s.frames[child].phase
  {
    hide Inv, WaitsFor, AwaitTaskStep, HandedOver, OnlyFrames, OnlyThread, Below;
    StepKeeps(s, AwaitTask(l, child));
    NotItself(s, child, Top(s, l));
    FreshWrapper(s);
    if !s.frames[child].phase.Finished? {
      AwaitedExactly(s, child);
    }
    AwaitedTask(s, l, child);
  }

  lemma FreshWrapper(s: State)
    requires Inv(s, None)
    ensures s.next !in s.wrappers
  {
  }

  lemma AwaitedExactly(s: State, child: Id)
    requires Inv(s, None) && child in s.frames && !s.frames[child].phase.Finished?
    ensures s.frames[child].parent.Some? <==> exists v :: Awaits(s, v, child)
  {
    hide Queues, Acyclic, Stacks, Deliveries;
    if s.frames[child].parent.Some? {
      assert ParentLink(s, child, s.frames[child].parent.value);
      assert Awaits(s, s.frames[child].parent.value, child);
    }
    if v :| Awaits(s, v, child) {
      assert Link(s, s.wrappers[v].client, v);
    }
  }

  lemma AwaitedTask(s: State, l: nat, child: Id)
    requires AwaitTaskReady(s, l, child) && child != Top(s, l) && s.next !in s.wrappers
    ensures var f, r := Top(s, l), AwaitTaskStep(s, l, child);
            && r.results == s.results && r.futures == s.futures
            && if s.frames[child].phase.Finished? then GoesOnWith(s, r, l, OnTask(child), s.results[child])
               else if s.frames[child].parent.Some? then GoesOnWith(s, r, l, OnTask(child), DoubleAwait)
               else
                 && Suspends(s, r, l, OnTask(child)) && Awaits(r, s.next, child) && OnlyFrames(s, r, {f, child})
                 && if s.frames[child].phase.Initial? then HandedOver(s, r, l, Below(s, l), child)
                    else OnlyThread(s, r, l, Below(s, l)) && r.frames[child].phase == s.frames[child].phase
  {
    if !s.frames[child].phase.Finished? && s.frames[child].parent.None? {
      if s.frames[child].phase.Initial? {
        var s1 := Blocked(s, l, child);
        BlockedStacks(s, l, child);
        EnterEffect(s1, l, child);
        EnterTakes(s1, l, child);
        hide Enter;
      }
    }
  }

  /** A resolved future gives its value without a wait; for any other the awaiter leaves the
      thread. */
  lemma AwaitFutureEffect(s: State, l: nat, u: nat)
    requires Inv(s, None) && Enabled(s, AwaitFuture(l, u))
    ensures var f, r := Top(s, l), Step(s, AwaitFuture(l, u));
            && r.results == s.results
            && match s.futures[u].value
               case Some(o) =>
                 && s.futures[u].log != [] && r.futures == s.futures
                 && GoesOnWith(s, r, l, OnFuture(u, |s.futures[u].log| - 1), o)
               case None =>
                 && Suspends(s, r, l, OnFuture(u, |s.futures[u].log|)) && AwaitsFuture(r, s.next, u, f)
                 && OnlyThread(s, r, l, Below(s, l)) && OnlyFrames(s, r, {f})
  {
    hide Inv, WaitsFor, AwaitFutureStep, AwaitsFuture, OnlyFrames, OnlyThread, Below, Suspends, GoesOnWith;
    StepKeeps(s, AwaitFuture(l, u));
    FreshWrapper(s);
    AwaitedFuture(s, l, u);
  }

  lemma AwaitedFuture(s: State, l: nat, u: nat)
    requires OnThread(s, l) && FutureLogged(s, u) && l < |s.stacks| && s.next !in s.wrappers
    ensures var f, r := Top(s, l), AwaitFutureStep(s, l, u);
            && r.results == s.results
            && match s.futures[u].value
               case Some(o) => r.futures == s.futures && GoesOnWith(s, r, l, OnFuture(u, |s.futures[u].log| - 1), o)
               case None =>
                 && Suspends(s, r, l, OnFuture(u, |s.futures[u].log|)) && AwaitsFuture(r, s.next, u, f)
                 && OnlyThread(s, r, l, Below(s, l)) && OnlyFrames(s, r, {f})
  {
  }

  /** After a reset the next await of the future waits again. */
  lemma ResetThenAwaitWaits(s: State, l: nat, u: nat)
    requires Inv(s, None) && OnThread(s, l) && u < |s.futures| && s.futures[u].value.Some?
    ensures var r := Step(s, Reset(u));
            && r == s.(futures := r.futures) && |r.futures| == |s.futures| && r.futures[u].value.None?
            && r.futures[u].log == s.futures[u].log
            && Enabled(r, AwaitFuture(l, u))
            && OnlyThread(s, Step(r, AwaitFuture(l, u)), l, Below(s, l))
            && AwaitsFuture(Step(r, AwaitFuture(l, u)), s.next, u, Top(s, l))
  {
    hide Inv, ResetStep, AwaitsFuture, OnlyFrames, OnlyThread, Suspends, GoesOnWith, LiveWaiter;
    ResetOpens(s, u);
    var r := Step(s, Reset(u));
    SameThreads(s, r, l);
    AwaitFutureEffect(r, l, u);
    var after := Step(r, AwaitFuture(l, u));
    SameThread(s, r, after, l);
  }

  lemma ResetOpens(s: State, u: nat)
    requires Inv(s, None) && u < |s.futures| && s.futures[u].value.Some?
    ensures var r := Step(s, Reset(u));
            && r == s.(futures := r.futures) && |r.futures| == |s.futures| && r.futures[u].value.None?
            && r.futures[u].log == s.futures[u].log && !LiveWaiter(r, u)
  {
    hide Inv;
    StepKeeps(s, Reset(u));
  }

  lemma SameThreads(s: State, r: State, l: nat)
    requires OnThread(s, l) && r == s.(futures := r.futures)
    ensures OnThread(r, l) && Below(r, l) == Below(s, l) && Top(r, l) == Top(s, l)
  {
  }

  lemma SameThread(s: State, r: State, after: State, l: nat)
    requires OnThread(s, l) && r == s.(futures := r.futures) && OnlyThread(r, after, l, Below(s, l))
    ensures OnlyThread(s, after, l, Below(s, l))
  {
  }

  // ---- Sleeping and the loop -----------------------------------------------

  /** A sleeper leaves its thread and is the last its own loop resumes. */
  lemma SleepEffect(s: State, l: nat)
    requires Inv(s, None) && Enabled(s, Action.Sleep(l))
    ensures var f, r := Top(s, l), Step(s, Action.Sleep(l));
            && r.stacks == s.stacks[l := Below(s, l)] && OnlyQueued(s, r, s.frames[f].loop, f)
            && OnlyFrames(s, r, {f}) && r.frames[f] == s.frames[f].(phase := Sleeping)
            && r.wrappers == s.wrappers && r.results == s.results && r.futures == s.futures
  {
    hide Inv, SleepStep, OnlyFrames, OnlyQueued, Below;
    StepKeeps(s, Action.Sleep(l));
    Slept(s, l);
  }

  lemma Slept(s: State, l: nat)
    requires OnThread(s, l) && LoopKnown(s, Top(s, l))
    ensures var f, r := Top(s, l), SleepStep(s, l);
            && r.stacks == s.stacks[l := Below(s, l)] && OnlyQueued(s, r, s.frames[f].loop, f)
            && OnlyFrames(s, r, {f}) && r.frames[f] == s.frames[f].(phase := Sleeping)
            && r.wrappers == s.wrappers && r.results == s.results && r.futures == s.futures
  {
  }

  /** The loop takes the entry out of its queue and runs the coroutine on its thread, with
      the answer it waited for; one that was destroyed is passed over. */
  lemma DispatchEffect(s: State, l: nat, i: nat)
    requires Inv(s, None) && Enabled(s, Dispatch(l, i))
    ensures var f, r := s.queues[l][i], Step(s, Dispatch(l, i));
            && r.queues == s.queues[l := s.queues[l][..i] + s.queues[l][i + 1..]]
            && r.results == s.results && r.futures == s.futures
            && if f !in s.frames then r.stacks == s.stacks && r.frames == s.frames && r.wrappers == s.wrappers
               else
                 && r.stacks == s.stacks[l := [f]] && OnlyFrames(s, r, {f})
                 && r.frames[f] == s.frames[f].(phase := Running)
                 && match s.frames[f].phase
                    case Awaiting(w) =>
                      && w in s.wrappers && s.wrappers[w].outcome.Some? && OnlyWrapper(s, r, w)
                      && r.wrappers[w] == s.wrappers[w].(taken := 1)
                    case _ => r.wrappers == s.wrappers
  {
    hide Inv, WaitsFor, DispatchStep, OnlyFrames, OnlyWrapper, Resumable;
    StepKeeps(s, Dispatch(l, i));
    var f := s.queues[l][i];
    if f in s.frames && s.frames[f].phase.Awaiting? {
      TakenOnce(s, f);
    }
    Dispatched(s, l, i);
  }

  lemma Dispatched(s: State, l: nat, i: nat)
    requires EntryReady(s, l, i) && l < |s.stacks| && s.stacks[l] == []
    requires var f := s.queues[l][i];
             f in s.frames && s.frames[f].phase.Awaiting? && s.frames[f].phase.wrapper in s.wrappers ==>
               s.wrappers[s.frames[f].phase.wrapper].taken == 0
    ensures var f, r := s.queues[l][i], DispatchStep(s, l, i);
            && r.queues == s.queues[l := s.queues[l][..i] + s.queues[l][i + 1..]]
            && r.results == s.results && r.futures == s.futures
            && if f !in s.frames then r.stacks == s.stacks && r.frames == s.frames && r.wrappers == s.wrappers
               else
                 && r.stacks == s.stacks[l := [f]] && OnlyFrames(s, r, {f})
                 && r.frames[f] == s.frames[f].(phase := Running)
                 && match s.frames[f].phase
                    case Awaiting(w) =>
                      && w in s.wrappers && s.wrappers[w].outcome.Some? && OnlyWrapper(s, r, w)
                      && r.wrappers[w] == s.wrappers[w].(taken := 1)
                    case _ => r.wrappers == s.wrappers
  {
    assert [] + [s.queues[l][i]] == [s.queues[l][i]];
  }

  lemma TakenOnce(s: State, f: Id)
    requires Inv(s, None) && f in s.frames && s.frames[f].phase.Awaiting?
    ensures s.frames[f].phase.wrapper in s.wrappers && s.wrappers[s.frames[f].phase.wrapper].taken == 0
  {
    hide Queues, Acyclic, Stacks;
    var w := s.frames[f].phase.wrapper;
    assert Link(s, f, w) && Delivered(s, s.wrappers[w], w);
  }

  /** A new task is not begun, and destroying tasks resumes nobody. */
  lemma CreateAndDestroyEffect(s: State, loop: nat, fs: set<Id>)
    requires Inv(s, None)
    ensures Enabled(s, Create(loop)) ==>
              var r := Step(s, Create(loop));
              s.next !in s.frames && r == s.(frames := s.frames[s.next := Frame(loop, Initial, None)], next := r.next)
    ensures Enabled(s, Destroy(fs)) ==>
              var r := Step(s, Destroy(fs));
              r == s.(frames := r.frames) && r.frames.Keys == s.frames.Keys - fs
              && forall f <- r.frames :: r.frames[f] == s.frames[f]
  {
  }
}
