/** What every reachable state of the coroutine runtime satisfies. */
module CoroutineInvariants {
  import opened Text
  import opened Coroutines

  predicate Distinct(xs: seq<Id>) {
    forall i, j :: 0 <= i < j < |xs| ==> xs[i] != xs[j]
  }

  /** Control: exactly the running coroutines are on a stack, each once, and on the
      thread of its own loop. */
  ghost predicate Stacks(s: State) {
    && |s.stacks| == |s.queues|
    && (forall l :: 0 <= l < |s.stacks| ==> Distinct(s.stacks[l]))
    && (forall l, f :: 0 <= l < |s.stacks| && f in s.stacks[l] ==>
          f in s.frames && s.frames[f].phase.Running? && s.frames[f].loop == l)
    && (forall f :: f in s.frames ==> s.frames[f].loop < |s.queues|)
    && (forall f :: f in s.frames && s.frames[f].phase.Running? ==> f in s.stacks[s.frames[f].loop])
  }

  /** What must be resumed: everything that can be, except a task nobody began. */
  predicate Due(s: State, f: Id) {
    Resumable(s, f) && (s.frames[f].phase.Initial? ==> s.frames[f].parent.Some?)
  }

  /** Deferral: what a loop is going to resume belongs to it, can be resumed, and is there
      once; and nothing that could go on is forgotten, except `ready`, whose turn is now. */
  ghost predicate Queues(s: State, ready: Option<Id>) {
    && |s.stacks| == |s.queues|
    && (forall l :: 0 <= l < |s.queues| ==> Distinct(s.queues[l]))
    && (forall l, f :: 0 <= l < |s.queues| && f in s.queues[l] ==> f < s.next)
    && (forall l, f :: 0 <= l < |s.queues| && f in s.queues[l] && f in s.frames ==>
          Resumable(s, f) && s.frames[f].loop == l && Some(f) != ready)
    && (forall f :: f in s.frames && Due(s, f) && Some(f) != ready ==>
          s.frames[f].loop < |s.queues| && f in s.queues[s.frames[f].loop])
  }

  /** Await links: a suspended awaiter and what it waits for point at each other. */
  ghost predicate Links(s: State) {
    && (forall f :: f in s.frames ==> f < s.next)
    && (forall w :: w in s.wrappers ==> w < s.next && s.wrappers[w].client < s.next)
    && (forall f :: f in s.results ==> f < s.next)
    && (forall u :: 0 <= u < |s.futures| && s.futures[u].value.None? && s.futures[u].waiter.Some? ==>
          WaiterLink(s, u, s.futures[u].waiter.value))
    && (forall f :: f in s.frames && s.frames[f].phase.Awaiting? ==> Link(s, f, s.frames[f].phase.wrapper))
    && (forall c :: c in s.frames && !s.frames[c].phase.Finished? && s.frames[c].parent.Some? ==>
          ParentLink(s, c, s.frames[c].parent.value))
  }

  ghost predicate Link(s: State, f: Id, w: Id) {
    && w in s.wrappers && s.wrappers[w].client == f
    && (s.wrappers[w].outcome.None? ==>
          match s.wrappers[w].target
          case OnTask(c) => c in s.frames && !s.frames[c].phase.Finished? && s.frames[c].parent == Some(w)
          case OnFuture(u, e) =>
            u < |s.futures| && s.futures[u] == Future(None, Some(w), s.futures[u].log) && e == |s.futures[u].log|)
  }

  ghost predicate WaiterLink(s: State, u: nat, w: Id)
    requires u < |s.futures|
  {
    w in s.wrappers && s.wrappers[w].target == OnFuture(u, |s.futures[u].log|) && s.wrappers[w].outcome.None?
  }

  ghost predicate ParentLink(s: State, c: Id, w: Id) {
    && w in s.wrappers && s.wrappers[w].target == OnTask(c) && s.wrappers[w].outcome.None?
    && s.wrappers[w].client in s.frames && s.frames[s.wrappers[w].client].phase == Awaiting(w)
  }

  /** Delivery: an outcome is the one of the task or of the future's epoch, and the client
      has taken it exactly once, or is about to. */
  ghost predicate Deliveries(s: State) {
    && (forall f :: f in s.frames ==> (s.frames[f].phase.Finished? <==> f in s.results))
    && (forall u :: 0 <= u < |s.futures| && s.futures[u].value.Some? ==>
          s.futures[u].log != [] && s.futures[u].value == Some(s.futures[u].log[|s.futures[u].log| - 1]))
    && (forall w :: w in s.wrappers ==> Delivered(s, s.wrappers[w], w))
  }

  ghost predicate Delivered(s: State, wrapper: Wrapper, w: Id) {
    && (match wrapper.outcome
        case None => wrapper.taken == 0
        case Some(o) =>
          && wrapper.taken <= 1
          && match wrapper.target
             case OnTask(c) => o == DoubleAwait || (c in s.results && s.results[c] == o)
             case OnFuture(u, e) => u < |s.futures| && e < |s.futures[u].log| && s.futures[u].log[e] == o)
    && (wrapper.client in s.frames ==>
          (wrapper.taken == 0 <==> s.frames[wrapper.client].phase == Awaiting(w)))
  }

  /** Following await links always comes to an end. */
  ghost predicate Acyclic(s: State) {
    forall f :: f in s.frames ==> exists n: nat :: Chain(s, f, n).None?
  }

  ghost predicate Inv(s: State, ready: Option<Id>) {
    Stacks(s) && Queues(s, ready) && Links(s) && Deliveries(s) && Acyclic(s)
  }

  // ---- What a step leaves alone ------------------ ------------------------

  /** It is enough to look at each link that was there before, and at the new ones. */
  lemma LinksFrom(s: State, s1: State)
    requires Links(s)
    requires forall f :: f in s1.frames ==> f < s1.next
    requires forall w :: w in s1.wrappers ==> w < s1.next && s1.wrappers[w].client < s1.next
    requires forall f :: f in s1.results ==> f < s1.next
    requires forall g :: g in s1.frames && s1.frames[g].phase.Awaiting? ==>
               var w := s1.frames[g].phase.wrapper;
               Link(s1, g, w) || (g in s.frames && s.frames[g].phase == Awaiting(w) && !Link(s, g, w))
    requires forall c :: c in s1.frames && !s1.frames[c].phase.Finished? && s1.frames[c].parent.Some? ==>
               var w := s1.frames[c].parent.value;
               ParentLink(s1, c, w) || (c in s.frames && !s.frames[c].phase.Finished?
                                        && s.frames[c].parent == Some(w) && !ParentLink(s, c, w))
    requires forall u :: 0 <= u < |s1.futures| && s1.futures[u].value.None? && s1.futures[u].waiter.Some? ==>
               var w := s1.futures[u].waiter.value;
               WaiterLink(s1, u, w) || (u < |s.futures| && s.futures[u].value.None?
                                        && s.futures[u].waiter == Some(w) && !WaiterLink(s, u, w))
    ensures Links(s1)
  {
  }

  lemma DeliveriesFrom(s: State, s1: State)
    requires Deliveries(s)
    requires forall f :: f in s1.frames ==> (s1.frames[f].phase.Finished? <==> f in s1.results)
    requires forall u :: 0 <= u < |s1.futures| && s1.futures[u].value.Some? ==>
               var log := s1.futures[u].log; log != [] && s1.futures[u].value == Some(log[|log| - 1])
    requires forall w :: w in s1.wrappers ==>
               Delivered(s1, s1.wrappers[w], w) || (w in s.wrappers && !Delivered(s, s.wrappers[w], w))
    ensures Deliveries(s1)
  {
  }

  predicate InNoQueue(s: State, f: Id) {
    forall l :: 0 <= l < |s.queues| ==> f !in s.queues[l]
  }

  /** No coroutine but `ready` becomes due or stops being so. */
  lemma QueuesFrom(s: State, s1: State, ready: Option<Id>)
    requires Queues(s, None) && (ready.Some? ==> InNoQueue(s, ready.value))
    requires s1.queues == s.queues && |s1.stacks| == |s.stacks| && s1.next >= s.next
    requires forall f :: f in s1.frames && f !in s.frames ==> f >= s.next && !Due(s1, f)
    requires forall f :: f in s1.frames && f in s.frames && Some(f) != ready ==>
               s1.frames[f].loop == s.frames[f].loop
               && (Resumable(s1, f) <==> Resumable(s, f)) && (Due(s1, f) <==> Due(s, f))
    ensures Queues(s1, ready)
  {
  }

  /** What cannot be resumed is in no queue, and neither is a task not yet begun unless
      its own loop has been asked to. */
  lemma NotQueued(s: State, f: Id)
    requires Queues(s, None) && f in s.frames && s.frames[f].loop < |s.queues|
    requires !Resumable(s, f) || (s.frames[f].phase.Initial? && !StartPending(s, f))
    ensures InNoQueue(s, f)
  {
  }

  // ---- Resuming ------------------------------------------------------------

  lemma ResumeKeepsStacks(s: State, f: Id)
    requires Stacks(s) && f in s.frames && Resumable(s, f)
    ensures Stacks(Resume(s, s.frames[f].loop, f))
  {
    var l := s.frames[f].loop;
    var s1 := Resume(s, l, f);
    assert s1.stacks[l] == s.stacks[l] + [f];
  }

  lemma ResumeKeepsQueues(s: State, f: Id)
    requires Queues(s, Some(f)) && Links(s) && Resumable(s, f) && s.frames[f].loop < |s.stacks|
    ensures Queues(Resume(s, s.frames[f].loop, f), None)
  {
    hide Link, ParentLink, WaiterLink;
    var s1 := Resume(s, s.frames[f].loop, f);
    assert forall g :: g in s1.frames && g != f ==> (Resumable(s1, g) <==> Resumable(s, g));
  }

  lemma ResumeKeepsLinks(s: State, f: Id)
    requires Links(s) && Resumable(s, f) && s.frames[f].loop < |s.stacks|
    ensures Links(Resume(s, s.frames[f].loop, f))
  {
    LinksFrom(s, Resume(s, s.frames[f].loop, f));
  }

  lemma ResumeKeepsDeliveries(s: State, f: Id)
    requires Deliveries(s) && Links(s) && Resumable(s, f) && s.frames[f].loop < |s.stacks|
    ensures Deliveries(Resume(s, s.frames[f].loop, f))
  {
    DeliveriesFrom(s, Resume(s, s.frames[f].loop, f));
  }

  /** `s1` has no await link to a task that `s` has not. */
  ghost predicate NoNewLinks(s: State, s1: State) {
    forall x :: WaitsOnTask(s1, x) ==> WaitsOnTask(s, x) && WaitedTask(s1, x) == WaitedTask(s, x)
  }

  lemma {:induction false} ChainShrinks(s: State, s1: State, f: Id, n: nat)
    requires NoNewLinks(s, s1) && Chain(s, f, n).None?
    ensures Chain(s1, f, n).None?
    decreases n
  {
    if n > 0 && WaitsOnTask(s1, f) {
      ChainShrinks(s, s1, WaitedTask(s, f), n - 1);
    }
  }

  lemma NoNewLinksKeepsAcyclic(s: State, s1: State)
    requires Acyclic(s) && NoNewLinks(s, s1) && s1.frames.Keys <= s.frames.Keys
    ensures Acyclic(s1)
  {
    forall f | f in s1.frames
      ensures exists n: nat :: Chain(s1, f, n).None?
    {
      var n: nat :| Chain(s, f, n).None?;
      ChainShrinks(s, s1, f, n);
    }
  }

  lemma {:induction false} EnterKeeps(s: State, l: nat, f: Id)
    requires Inv(s, Some(f)) && Resumable(s, f) && l < |s.stacks|
    ensures Inv(Enter(s, l, f), None)
  {
    hide Acyclic, Deliveries, Links, Stacks, Queues;
    LoopExists(s, f);
    if s.frames[f].loop == l {
      ResumeKeepsStacks(s, f);
      ResumeKeepsQueues(s, f);
      ResumeKeepsLinks(s, f);
      ResumeKeepsDeliveries(s, f);
      NoNewLinksKeepsAcyclic(s, Resume(s, l, f));
    } else {
      DeferKeeps(s, f);
    }
  }

  lemma LoopExists(s: State, f: Id)
    requires Stacks(s) && f in s.frames
    ensures s.frames[f].loop < |s.queues| == |s.stacks|
  {
  }

  lemma DeferKeeps(s: State, f: Id)
    requires Inv(s, Some(f)) && Resumable(s, f)
    ensures Inv(Defer(s, f), None)
  {
    var s1 := Defer(s, f);
    DeferKeepsQueues(s, f);
    LinksFrom(s, s1);
    DeliveriesFrom(s, s1);
    NoNewLinksKeepsAcyclic(s, s1);
  }

  lemma DeferKeepsQueues(s: State, f: Id)
    requires Queues(s, Some(f)) && Links(s) && Resumable(s, f) && s.frames[f].loop < |s.queues|
    ensures Queues(Defer(s, f), None)
  {
    var l := s.frames[f].loop;
    var s1 := Defer(s, f);
    assert s1.queues[l] == s.queues[l] + [f];
    assert forall g :: g in s1.frames ==> (Resumable(s1, g) <==> Resumable(s, g));
  }
}
