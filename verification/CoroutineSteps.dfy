/** Every step of the coroutine runtime keeps the invariant, and so every reachable state
    satisfies it. */
module CoroutineSteps {
  import opened Text
  import opened Coroutines
  import opened CoroutineInvariants

  // ---- Create and Destroy --------------------------------------------------

  lemma CreateKeeps(s: State, loop: nat)
    requires Inv(s, None) && loop < |s.queues|
    ensures Inv(CreateStep(s, loop), None)
  {
    hide Acyclic, Deliveries, Links, Stacks, Queues;
    CreateKeepsControl(s, loop);
    CreateKeepsLinks(s, loop);
    CreateKeepsDeliveries(s, loop);
    CreateKeepsAcyclic(s, loop);
  }

  lemma CreateKeepsControl(s: State, loop: nat)
    requires Stacks(s) && Queues(s, None) && Links(s) && loop < |s.queues|
    ensures Stacks(CreateStep(s, loop)) && Queues(CreateStep(s, loop), None)
  {
    hide Queues;
    QueuesFrom(s, CreateStep(s, loop), None);
  }

  lemma CreateKeepsLinks(s: State, loop: nat)
    requires Links(s)
    ensures Links(CreateStep(s, loop))
  {
    var s1 := CreateStep(s, loop);
    LinksFrom(s, s1);
  }

  lemma CreateKeepsDeliveries(s: State, loop: nat)
    requires Deliveries(s) && Links(s)
    ensures Deliveries(CreateStep(s, loop))
  {
    var s1 := CreateStep(s, loop);
    DeliveriesFrom(s, s1);
  }

  lemma CreateKeepsAcyclic(s: State, loop: nat)
    requires Acyclic(s) && Links(s)
    ensures Acyclic(CreateStep(s, loop))
  {
    var s1 := CreateStep(s, loop);
    forall f | f in s1.frames
      ensures exists n: nat :: Chain(s1, f, n).None?
    {
      if f == s.next {
        assert Chain(s1, f, 1).None?;
      } else {
        var n: nat :| Chain(s, f, n).None?;
        ChainShrinks(s, s1, f, n);
      }
    }
  }

  lemma {:induction false} DestroyKeeps(s: State, fs: set<Id>)
    requires Inv(s, None) && Enabled(s, Destroy(fs))
    ensures Inv(DestroyStep(s, fs), None)
  {
    hide Acyclic, Deliveries, Links, Stacks, Queues;
    DestroyKeepsStacks(s, fs);
    DestroyKeepsQueues(s, fs);
    DestroyKeepsLinks(s, fs);
    DestroyKeepsDeliveries(s, fs);
    NoNewLinksKeepsAcyclic(s, DestroyStep(s, fs));
  }

  lemma DestroyKeepsStacks(s: State, fs: set<Id>)
    requires Stacks(s) && forall f :: f in fs ==> f in s.frames && !s.frames[f].phase.Running?
    ensures Stacks(DestroyStep(s, fs))
  {
  }

  lemma DestroyKeepsQueues(s: State, fs: set<Id>)
    requires Queues(s, None)
    ensures Queues(DestroyStep(s, fs), None)
  {
    hide Queues;
    QueuesFrom(s, DestroyStep(s, fs), None);
  }

  lemma DestroyKeepsLinks(s: State, fs: set<Id>)
    requires Links(s) && forall f :: f in fs ==> GoesWith(s, f, fs)
    ensures Links(DestroyStep(s, fs))
  {
    LinksFrom(s, DestroyStep(s, fs));
  }

  lemma DestroyKeepsDeliveries(s: State, fs: set<Id>)
    requires Deliveries(s)
    ensures Deliveries(DestroyStep(s, fs))
  {
    DeliveriesFrom(s, DestroyStep(s, fs));
  }

  // ---- An await that does not suspend --------------------------------------

  /** The awaiter goes on at once with an outcome. */
  lemma WrapKeeps(s: State, f: Id, target: Target, o: Outcome)
    requires Inv(s, None) && f in s.frames && s.frames[f].phase.Running?
    requires match target
             case OnTask(c) => o == DoubleAwait || (c in s.results && s.results[c] == o)
             case OnFuture(u, e) => u < |s.futures| && e < |s.futures[u].log| && s.futures[u].log[e] == o
    ensures Inv(Wrap(s, f, target, Some(o)), None)
  {
    hide Acyclic, Links, Deliveries, Queues, Stacks;
    var s1 := Wrap(s, f, target, Some(o));
    WrapKeepsStacks(s, s1);
    WrapKeepsQueues(s, f, target, o);
    WrapKeepsLinks(s, f, target, Some(o));
    WrapKeepsDeliveries(s, f, target, o);
    NoNewLinksKeepsAcyclic(s, s1);
  }

  lemma WrapKeepsQueues(s: State, f: Id, target: Target, o: Outcome)
    requires Queues(s, None) && Links(s) && f in s.frames && s.frames[f].phase.Running?
    ensures Queues(Wrap(s, f, target, Some(o)), None)
    ensures NoNewLinks(s, Wrap(s, f, target, Some(o)))
  {
    hide Queues;
    QueuesFrom(s, Wrap(s, f, target, Some(o)), None);
  }

  lemma WrapKeepsLinks(s: State, f: Id, target: Target, o: Option<Outcome>)
    requires Links(s) && f in s.frames
    ensures Links(Wrap(s, f, target, o))
  {
    var s1 := Wrap(s, f, target, o);
    LinksFrom(s, s1);
  }

  lemma WrapKeepsDeliveries(s: State, f: Id, target: Target, o: Outcome)
    requires Deliveries(s) && Links(s) && f in s.frames && s.frames[f].phase.Running?
    requires match target
             case OnTask(c) => o == DoubleAwait || (c in s.results && s.results[c] == o)
             case OnFuture(u, e) => u < |s.futures| && e < |s.futures[u].log| && s.futures[u].log[e] == o
    ensures Deliveries(Wrap(s, f, target, Some(o)))
  {
    var s1 := Wrap(s, f, target, Some(o));
    DeliveriesFrom(s, s1);
  }

  // ---- Leaving the thread --------------------------------------------------

  lemma LeaveKeepsStacks(s: State, l: nat, phase: Phase)
    requires Stacks(s) && OnThread(s, l) && !phase.Running?
    ensures Stacks(Leave(s, l, phase))
  {
    var f := Top(s, l);
    var s1 := Leave(s, l, phase);
    var rest := s.stacks[l][..|s.stacks[l]| - 1];
    assert s.stacks[l] == rest + [f];
    assert s1.stacks[l] == rest;
    assert f !in rest;
    assert forall g :: g in s.stacks[l] && g != f ==> g in rest;
  }

  /** A suspended await: the awaiter has left, its wrapper is new. */
  lemma {:induction false} BlockedKeeps(s: State, l: nat, child: Id)
    requires Inv(s, None) && Enabled(s, AwaitTask(l, child))
    requires !s.frames[child].phase.Finished? && s.frames[child].parent.None?
    ensures Inv(Blocked(s, l, child), if s.frames[child].phase.Initial? then Some(child) else None)
  {
    hide Acyclic, Deliveries, Links, Stacks, Queues;
    TopRuns(s, l);
    NotItself(s, child, Top(s, l));
    BlockedKeepsControl(s, l, child);
    BlockedKeepsLinks(s, l, child);
    BlockedKeepsDeliveries(s, l, child);
    BlockedKeepsAcyclic(s, l, child);
  }

  lemma TopRuns(s: State, l: nat)
    requires Stacks(s) && OnThread(s, l)
    ensures s.frames[Top(s, l)].phase.Running? && s.frames[Top(s, l)].loop == l
  {
  }

  lemma NotItself(s: State, f: Id, g: Id)
    requires !WaitsFor(s, f, g)
    ensures f != g
  {
    assert Chain(s, f, 0) == Some(f);
  }

  lemma {:induction false} BlockedKeepsControl(s: State, l: nat, child: Id)
    requires Stacks(s) && Queues(s, None) && Links(s) && OnThread(s, l) && child in s.frames && child != Top(s, l)
    requires s.frames[Top(s, l)].phase.Running? && s.frames[child].parent.None? && !StartPending(s, child)
    ensures Stacks(Blocked(s, l, child))
    ensures Queues(Blocked(s, l, child), if s.frames[child].phase.Initial? then Some(child) else None)
  {
    hide Queues, Stacks;
    LeaveKeepsStacks(s, l, Awaiting(s.next));
    WrapKeepsStacks(Leave(s, l, Awaiting(s.next)), Blocked(s, l, child));
    LoopExists(s, child);
    BlockedKeepsQueues(s, l, child);
  }

  lemma {:induction false} BlockedKeepsQueues(s: State, l: nat, child: Id)
    requires Queues(s, None) && Links(s) && OnThread(s, l) && child in s.frames && child != Top(s, l)
    requires s.frames[Top(s, l)].phase.Running? && s.frames[child].parent.None? && !StartPending(s, child)
    requires s.frames[child].loop < |s.queues|
    ensures Queues(Blocked(s, l, child), if s.frames[child].phase.Initial? then Some(child) else None)
  {
    hide Queues;
    if s.frames[child].phase.Initial? {
      NotQueued(s, child);
    }
    NewWrapperKeepsQueues(s, Top(s, l), Blocked(s, l, child), Some(child));
  }

  /** A running coroutine that starts to wait is neither due before nor after; only
      `child` may become due. */
  lemma {:induction false} NewWrapperKeepsQueues(s: State, f: Id, s1: State, child: Option<Id>)
    requires Queues(s, None) && Links(s) && f in s.frames && s.frames[f].phase.Running?
    requires s1.queues == s.queues && |s1.stacks| == |s.stacks| && s1.next == s.next + 1
    requires s1.frames.Keys == s.frames.Keys && s1.frames[f].phase == Awaiting(s.next)
    requires forall g :: g in s.frames ==> s1.frames[g].loop == s.frames[g].loop
    requires forall g :: g in s.frames && g != f ==> s1.frames[g].phase == s.frames[g].phase
    requires forall g :: g in s.frames && Some(g) != child ==> s1.frames[g].parent == s.frames[g].parent
    requires s1.wrappers.Keys == s.wrappers.Keys + {s.next} && s1.wrappers[s.next].outcome.None?
    requires forall w :: w in s.wrappers ==> s1.wrappers[w] == s.wrappers[w]
    requires child.Some? ==> child.value in s.frames
    requires child.Some? && s.frames[child.value].phase.Initial? ==> InNoQueue(s, child.value)
    ensures Queues(s1, if child.Some? && s.frames[child.value].phase.Initial? then child else None)
  {
    hide Queues;
    forall g | g in s.frames
      ensures Resumable(s1, g) <==> Resumable(s, g)
    {
      if g != f && s.frames[g].phase.Awaiting? {
        assert Link(s, g, s.frames[g].phase.wrapper);
      }
    }
    QueuesFrom(s, s1, if child.Some? && s.frames[child.value].phase.Initial? then child else None);
  }

  lemma WrapKeepsStacks(s: State, s1: State)
    requires Stacks(s) && s1.stacks == s.stacks && |s1.queues| == |s.queues| && s1.frames.Keys == s.frames.Keys
    requires forall f :: f in s.frames ==>
               s1.frames[f].phase == s.frames[f].phase && s1.frames[f].loop == s.frames[f].loop
    ensures Stacks(s1)
  {
  }

  lemma BlockedKeepsLinks(s: State, l: nat, child: Id)
    requires Links(s) && OnThread(s, l) && child in s.frames && child != Top(s, l)
    requires s.frames[Top(s, l)].phase.Running?
    requires !s.frames[child].phase.Finished? && s.frames[child].parent.None?
    ensures Links(Blocked(s, l, child))
  {
    var f := Top(s, l);
    var s1 := Blocked(s, l, child);
    LinksFrom(s, s1);
  }

  lemma BlockedKeepsDeliveries(s: State, l: nat, child: Id)
    requires Deliveries(s) && Links(s) && OnThread(s, l) && child in s.frames && child != Top(s, l)
    requires s.frames[Top(s, l)].phase.Running?
    ensures Deliveries(Blocked(s, l, child))
  {
    var s1 := Blocked(s, l, child);
    DeliveriesFrom(s, s1);
  }

  // ---- No cycle is closed --------------------------------------------------

  /** `s1` has the await links of `s` and one more, from `f` to `child`. */
  ghost predicate OneMoreLink(s: State, s1: State, f: Id, child: Id) {
    && !WaitsOnTask(s, f) && WaitsOnTask(s1, f) && WaitedTask(s1, f) == child
    && forall x :: x != f ==>
         (WaitsOnTask(s1, x) <==> WaitsOnTask(s, x)) &&
         (WaitsOnTask(s, x) ==> WaitedTask(s1, x) == WaitedTask(s, x))
  }

  lemma {:induction false} ChainAvoids(s: State, s1: State, f: Id, child: Id, x: Id, n: nat)
    requires OneMoreLink(s, s1, f, child) && forall k: nat :: Chain(s, x, k) != Some(f)
    ensures Chain(s1, x, n) == Chain(s, x, n)
    decreases n
  {
    assert Chain(s, x, 0) == Some(x);
    if n > 0 && WaitsOnTask(s, x) {
      var y := WaitedTask(s, x);
      assert forall k: nat :: Chain(s, y, k) == Chain(s, x, k + 1);
      ChainAvoids(s, s1, f, child, y, n - 1);
    }
  }

  lemma {:induction false} ChainGrows(s: State, s1: State, f: Id, child: Id, x: Id, n: nat, k: nat) returns (m: nat)
    requires OneMoreLink(s, s1, f, child)
    requires Chain(s, x, n).None? && Chain(s1, child, k).None?
    ensures Chain(s1, x, m).None?
    decreases n
  {
    if x == f {
      m := k + 1;
    } else if WaitsOnTask(s, x) {
      var i := ChainGrows(s, s1, f, child, WaitedTask(s, x), n - 1, k);
      m := i + 1;
    } else {
      m := 1;
    }
  }

  lemma OneMoreLinkKeepsAcyclic(s: State, s1: State, f: Id, child: Id)
    requires Acyclic(s) && OneMoreLink(s, s1, f, child) && s1.frames.Keys == s.frames.Keys
    requires child in s.frames && !WaitsFor(s, child, f)
    ensures Acyclic(s1)
  {
    var k: nat :| Chain(s, child, k).None?;
    ChainAvoids(s, s1, f, child, child, k);
    forall x | x in s1.frames
      ensures exists n: nat :: Chain(s1, x, n).None?
    {
      var n: nat :| Chain(s, x, n).None?;
      var m := ChainGrows(s, s1, f, child, x, n, k);
    }
  }

  lemma BlockedKeepsAcyclic(s: State, l: nat, child: Id)
    requires Acyclic(s) && Links(s) && OnThread(s, l) && child in s.frames
    requires s.frames[Top(s, l)].phase.Running? && !WaitsFor(s, child, Top(s, l))
    ensures Acyclic(Blocked(s, l, child))
  {
    NotItself(s, child, Top(s, l));
    OneMoreLinkKeepsAcyclic(s, Blocked(s, l, child), Top(s, l), child);
  }

  // ---- An await on a future that suspends -----------------------------------

  lemma {:induction false} FutureBlockedKeeps(s: State, l: nat, u: nat)
    requires Inv(s, None) && Enabled(s, AwaitFuture(l, u)) && s.futures[u].value.None?
    ensures Inv(AwaitFutureStep(s, l, u), None)
  {
    hide Acyclic, Deliveries, Stacks, Queues;
    TopRuns(s, l);
    LeaveKeepsStacks(s, l, Awaiting(s.next));
    var s1 := AwaitFutureStep(s, l, u);
    WrapKeepsStacks(Leave(s, l, Awaiting(s.next)), s1);
    NewWrapperKeepsQueues(s, Top(s, l), s1, None);
    FutureBlockedKeepsLinks(s, l, u);
    FutureBlockedKeepsDeliveries(s, l, u);
    FutureBlockedAddsNoLink(s, l, u);
    hide Links, AwaitFutureStep, NoNewLinks;
    NoNewLinksKeepsAcyclic(s, s1);
  }

  lemma FutureBlockedAddsNoLink(s: State, l: nat, u: nat)
    requires Links(s) && OnThread(s, l) && u < |s.futures| && s.futures[u].value.None?
    ensures var s1 := AwaitFutureStep(s, l, u);
            NoNewLinks(s, s1) && s1.frames.Keys <= s.frames.Keys
  {
  }

  lemma FutureBlockedKeepsLinks(s: State, l: nat, u: nat)
    requires Links(s) && OnThread(s, l) && u < |s.futures| && s.futures[u].value.None? && !LiveWaiter(s, u)
    requires s.frames[Top(s, l)].phase.Running?
    ensures Links(AwaitFutureStep(s, l, u))
  {
    var f := Top(s, l);
    var s1 := AwaitFutureStep(s, l, u);
    LinksFrom(s, s1);
  }

  lemma FutureBlockedKeepsDeliveries(s: State, l: nat, u: nat)
    requires Deliveries(s) && Links(s) && OnThread(s, l) && u < |s.futures| && s.futures[u].value.None?
    requires s.frames[Top(s, l)].phase.Running?
    ensures Deliveries(AwaitFutureStep(s, l, u))
  {
    var s1 := AwaitFutureStep(s, l, u);
    DeliveriesFrom(s, s1);
  }

  // ---- The end of a coroutine ----------------------------------------------

  /** The client of `w`, whose outcome has just been set, is the only new ready one. */
  lemma {:induction false} OutcomeKeepsQueues(s: State, s1: State, w: Id)
    requires Queues(s, None) && Links(s) && w in s.wrappers && s.wrappers[w].outcome.None?
    requires s.wrappers[w].client in s.frames && s.frames[s.wrappers[w].client].phase == Awaiting(w)
    requires s.frames[s.wrappers[w].client].loop < |s.queues|
    requires s1.queues == s.queues && |s1.stacks| == |s.stacks| && s1.next == s.next
    requires s1.frames.Keys == s.frames.Keys && s1.wrappers.Keys == s.wrappers.Keys
    requires forall g :: g in s.frames ==>
               s1.frames[g].loop == s.frames[g].loop && s1.frames[g].parent == s.frames[g].parent
    requires forall g :: g in s.frames && s1.frames[g].phase != s.frames[g].phase ==>
               s.frames[g].phase.Running? && s1.frames[g].phase.Finished?
    requires forall v :: v in s.wrappers && v != w ==> s1.wrappers[v].outcome == s.wrappers[v].outcome
    requires s1.wrappers[w].outcome.Some?
    ensures Queues(s1, Some(s.wrappers[w].client))
  {
    hide Queues;
    var client := s.wrappers[w].client;
    forall g | g in s.frames && g != client
      ensures Resumable(s1, g) <==> Resumable(s, g)
    {
      if s.frames[g].phase.Awaiting? {
        assert Link(s, g, s.frames[g].phase.wrapper);
      }
    }
    NotQueued(s, client);
    QueuesFrom(s, s1, Some(client));
  }

  lemma ParentIsReady(s: State, l: nat)
    requires Stacks(s) && Links(s) && OnThread(s, l)
    ensures ParentReady(s, Top(s, l))
  {
    var f := Top(s, l);
    TopRuns(s, l);
    if s.frames[f].parent.Some? {
      assert ParentLink(s, f, s.frames[f].parent.value);
    }
  }

  lemma {:induction false} EndedKeeps(s: State, l: nat, o: Outcome)
    requires Inv(s, None) && OnThread(s, l) && ParentReady(s, Top(s, l))
    ensures var f := Top(s, l);
            Inv(Ended(s, l, o),
                if s.frames[f].parent.Some? then Some(s.wrappers[s.frames[f].parent.value].client) else None)
  {
    hide Acyclic, Deliveries, Links, Stacks, Queues;
    TopRuns(s, l);
    LeaveKeepsStacks(s, l, Finished);
    WrapKeepsStacks(Leave(s, l, Finished), Ended(s, l, o));
    EndedKeepsQueues(s, l, o);
    EndedKeepsLinks(s, l, o);
    EndedKeepsDeliveries(s, l, o);
    NoNewLinksKeepsAcyclic(s, Ended(s, l, o));
  }

  lemma {:induction false} EndedKeepsQueues(s: State, l: nat, o: Outcome)
    requires Queues(s, None) && Links(s) && OnThread(s, l) && ParentReady(s, Top(s, l))
    requires s.frames[Top(s, l)].phase.Running?
    ensures var f := Top(s, l);
            Queues(Ended(s, l, o),
                   if s.frames[f].parent.Some? then Some(s.wrappers[s.frames[f].parent.value].client) else None)
  {
    hide Queues;
    var f := Top(s, l);
    if s.frames[f].parent.Some? {
      assert ParentLink(s, f, s.frames[f].parent.value);
      OutcomeKeepsQueues(s, Ended(s, l, o), s.frames[f].parent.value);
    } else {
      QueuesFrom(s, Ended(s, l, o), None);
    }
  }

  lemma EndedKeepsLinks(s: State, l: nat, o: Outcome)
    requires Links(s) && OnThread(s, l) && ParentReady(s, Top(s, l)) && s.frames[Top(s, l)].phase.Running?
    ensures Links(Ended(s, l, o))
  {
    var f := Top(s, l);
    var s1 := Ended(s, l, o);
    LinksFrom(s, s1);
    if s.frames[f].parent.Some? {
      assert ParentLink(s, f, s.frames[f].parent.value);
    }
  }

  lemma EndedKeepsDeliveries(s: State, l: nat, o: Outcome)
    requires Deliveries(s) && Links(s) && OnThread(s, l) && ParentReady(s, Top(s, l))
    requires s.frames[Top(s, l)].phase.Running?
    ensures Deliveries(Ended(s, l, o))
  {
    var f := Top(s, l);
    var s1 := Ended(s, l, o);
    if s.frames[f].parent.Some? {
      assert ParentLink(s, f, s.frames[f].parent.value);
    }
    DeliveriesFrom(s, s1);
  }

  // ---- Futures -------------------------------------------------------------

  lemma SettledKeeps(s: State, u: nat, o: Outcome)
    requires Inv(s, None) && u < |s.futures| && s.futures[u].value.None?
    ensures Inv(Settled(s, u, o), if LiveWaiter(s, u) then Some(s.wrappers[s.futures[u].waiter.value].client) else None)
  {
    hide Acyclic, Deliveries, Links, Stacks, Queues;
    WrapKeepsStacks(s, Settled(s, u, o));
    SettledKeepsQueues(s, u, o);
    SettledKeepsLinks(s, u, o);
    SettledKeepsDeliveries(s, u, o);
    NoNewLinksKeepsAcyclic(s, Settled(s, u, o));
  }

  lemma {:induction false} SettledKeepsQueues(s: State, u: nat, o: Outcome)
    requires Stacks(s) && Queues(s, None) && Links(s) && u < |s.futures| && s.futures[u].value.None?
    ensures Queues(Settled(s, u, o),
                   if LiveWaiter(s, u) then Some(s.wrappers[s.futures[u].waiter.value].client) else None)
  {
    hide Queues;
    if LiveWaiter(s, u) {
      assert WaiterLink(s, u, s.futures[u].waiter.value);
      OutcomeKeepsQueues(s, Settled(s, u, o), s.futures[u].waiter.value);
    } else {
      QueuesFrom(s, Settled(s, u, o), None);
    }
  }

  lemma SettledKeepsLinks(s: State, u: nat, o: Outcome)
    requires Links(s) && u < |s.futures| && s.futures[u].value.None?
    ensures Links(Settled(s, u, o))
  {
    var s1 := Settled(s, u, o);
    if s.futures[u].waiter.Some? {
      assert WaiterLink(s, u, s.futures[u].waiter.value);
    }
    LinksFrom(s, s1);
  }

  lemma SettledKeepsDeliveries(s: State, u: nat, o: Outcome)
    requires Deliveries(s) && Links(s) && u < |s.futures| && s.futures[u].value.None?
    ensures Deliveries(Settled(s, u, o))
  {
    var s1 := Settled(s, u, o);
    if s.futures[u].waiter.Some? {
      assert WaiterLink(s, u, s.futures[u].waiter.value);
    }
    DeliveriesFrom(s, s1);
  }

  lemma {:induction false} ResetKeeps(s: State, u: nat)
    requires Inv(s, None) && u < |s.futures|
    ensures Inv(ResetStep(s, u), None)
  {
    hide Acyclic, Stacks, Queues, Links, Deliveries;
    var s1 := ResetStep(s, u);
    WrapKeepsStacks(s, s1);
    QueuesFrom(s, s1, None);
    ResetKeepsLinks(s, u);
    ResetKeepsDeliveries(s, u);
    NoNewLinksKeepsAcyclic(s, s1);
  }

  lemma ResetKeepsLinks(s: State, u: nat)
    requires Links(s) && u < |s.futures|
    ensures Links(ResetStep(s, u))
  {
    LinksFrom(s, ResetStep(s, u));
  }

  lemma ResetKeepsDeliveries(s: State, u: nat)
    requires Deliveries(s) && u < |s.futures|
    ensures Deliveries(ResetStep(s, u))
  {
    DeliveriesFrom(s, ResetStep(s, u));
  }

  lemma NewFutureKeeps(s: State)
    requires Inv(s, None)
    ensures Inv(s.(futures := s.futures + [Future(None, None, [])]), None)
  {
    hide Acyclic, Stacks, Queues;
    var s1 := s.(futures := s.futures + [Future(None, None, [])]);
    WrapKeepsStacks(s, s1);
    QueuesFrom(s, s1, None);
    assert Links(s1) by {
      LinksFrom(s, s1);
    }
    assert Deliveries(s1) by {
      DeliveriesFrom(s, s1);
    }
    NoNewLinksKeepsAcyclic(s, s1);
  }

  // ---- Sleep, Dispatch ------------------------------------------------------

  lemma {:induction false} SleepKeeps(s: State, l: nat)
    requires Inv(s, None) && OnThread(s, l)
    ensures s.frames[Top(s, l)].loop < |s.queues| && Inv(SleepStep(s, l), None)
  {
    hide Acyclic, Deliveries, Links, Stacks, Queues;
    TopRuns(s, l);
    var f := Top(s, l);
    var s1 := Leave(s, l, Sleeping);
    LeaveKeepsStacks(s, l, Sleeping);
    LoopExists(s, f);
    SleepKeepsQueues(s, l);
    SleepKeepsLinks(s, l);
    NoNewLinksKeepsAcyclic(s, s1);
    DeferKeeps(s1, f);
  }

  lemma SleepKeepsQueues(s: State, l: nat)
    requires Queues(s, None) && OnThread(s, l) && s.frames[Top(s, l)].phase.Running?
    requires s.frames[Top(s, l)].loop < |s.queues|
    ensures Queues(Leave(s, l, Sleeping), Some(Top(s, l)))
  {
    hide Queues;
    NotQueued(s, Top(s, l));
    QueuesFrom(s, Leave(s, l, Sleeping), Some(Top(s, l)));
  }

  lemma SleepKeepsLinks(s: State, l: nat)
    requires Links(s) && Deliveries(s) && OnThread(s, l) && s.frames[Top(s, l)].phase.Running?
    ensures Links(Leave(s, l, Sleeping)) && Deliveries(Leave(s, l, Sleeping))
  {
    LinksFrom(s, Leave(s, l, Sleeping));
    DeliveriesFrom(s, Leave(s, l, Sleeping));
  }

  lemma UnqueuedKeeps(s: State, l: nat, i: nat)
    requires Inv(s, None) && l < |s.queues| && i < |s.queues[l]|
    ensures var f := s.queues[l][i]; Inv(Unqueued(s, l, i), if f in s.frames then Some(f) else None)
  {
    hide Acyclic, Deliveries, Links, Stacks, Queues;
    var s1 := Unqueued(s, l, i);
    WrapKeepsStacks(s, s1);
    UnqueuedKeepsQueues(s, l, i);
    UnqueuedKeepsLinks(s, l, i);
    NoNewLinksKeepsAcyclic(s, s1);
  }

  lemma WithoutOne(q: seq<Id>, i: nat)
    requires Distinct(q) && i < |q|
    ensures var rest := q[..i] + q[i + 1..];
            Distinct(rest) && forall g :: g in rest <==> g in q && g != q[i]
  {
    var rest := q[..i] + q[i + 1..];
    assert forall j :: 0 <= j < |rest| ==> rest[j] == q[if j < i then j else j + 1];
    forall g | g in q && g != q[i]
      ensures g in rest
    {
      var j :| 0 <= j < |q| && q[j] == g;
      assert rest[if j < i then j else j - 1] == g;
    }
  }

  lemma UnqueuedKeepsQueues(s: State, l: nat, i: nat)
    requires Queues(s, None) && l < |s.queues| && i < |s.queues[l]|
    ensures var f := s.queues[l][i]; Queues(Unqueued(s, l, i), if f in s.frames then Some(f) else None)
  {
    hide Resumable, Due;
    WithoutOne(s.queues[l], i);
    UnqueuedIsDue(s, l, i);
  }

  lemma UnqueuedIsDue(s: State, l: nat, i: nat)
    requires l < |s.queues| && i < |s.queues[l]|
    ensures var s1 := Unqueued(s, l, i);
            forall g :: (Resumable(s1, g) <==> Resumable(s, g)) && (Due(s1, g) <==> Due(s, g))
  {
  }

  lemma UnqueuedKeepsLinks(s: State, l: nat, i: nat)
    requires Links(s) && Deliveries(s) && l < |s.queues| && i < |s.queues[l]|
    ensures Links(Unqueued(s, l, i)) && Deliveries(Unqueued(s, l, i))
  {
    LinksFrom(s, Unqueued(s, l, i));
    DeliveriesFrom(s, Unqueued(s, l, i));
  }
}
