/** Whether `gather`'s coroutine can make its next move. It starts its children and awaits them
    without looking at what others have done to them: for children of another loop, its own
    start is still pending when it awaits. */
module GatherProgress {
  import opened Text
  import opened Coroutines
  import opened CoroutineInvariants
  import opened CoroutineSteps
  import opened CoroutineRuns
  import opened CoroutineAnswers
  import CoroutineLimits
  import Gather
  import opened GatherRuntime

  // ---- The next move -------------------------------------------------------

  /** The wrapper of the last await. */
  function LastAwait(p: Program): Id
    requires p.awaits != []
  {
    p.awaits[|p.awaits| - 1]
  }

  /** What the body of `gather` does next on thread `l`; `v` stands for the values it would
      return. */
  function NextMove(s: State, p: Program, l: nat, v: int): Action
    requires Gather.IsOrder(p.order, |p.children|) && |p.awaits| <= |p.children|
  {
    if p.started < |p.children| then Start(l, p.children[p.started])
    else if !GoesOn(s, p) && LastAwait(p) in s.wrappers && s.wrappers[LastAwait(p)].outcome.Some? then
      Return(l, s.wrappers[LastAwait(p)].outcome.value)
    else if |p.awaits| < |p.children| then AwaitTask(l, p.children[p.order[|p.awaits|]])
    else Return(l, Value(v))
  }

  lemma NextMoveIsItsTurn(s: State, p: Program, l: nat, v: int)
    requires Inv(s, None) && Gathering(s, p) && OnThread(s, l) && Top(s, l) == p.coroutine
    ensures var move := NextMove(s, p, l, v); Acts(s, p, move) && ItsTurn(s, p, move)
  {
    hide Queues, Links, Acyclic;
    TopRuns(s, l);
    if p.awaits != [] {
      assert InTurn(s, p, |p.awaits| - 1);
      assert Delivered(s, s.wrappers[LastAwait(p)], LastAwait(p));
    }
  }

  /** The child to be awaited next has not been awaited by anybody. */
  lemma NextIsUnawaited(s: State, p: Program)
    requires Links(s) && Gathering(s, p) && |p.awaits| < |p.children|
    ensures var c := p.children[p.order[|p.awaits|]];
            c in s.frames && !s.frames[c].phase.Finished? ==> s.frames[c].parent.None?
  {
    var c := p.children[p.order[|p.awaits|]];
    assert c in s.frames && !s.frames[c].phase.Finished? && s.frames[c].parent.Some? ==>
      ParentLink(s, c, s.frames[c].parent.value);
    forall j | 0 <= j < |p.awaits|
      ensures p.awaits[j] in s.wrappers && s.wrappers[p.awaits[j]].target != OnTask(c)
    {
      assert InTurn(s, p, j);
    }
  }

  /** What `gather` does next the runtime bears if and only if: a child to be started exists,
      was not begun and is not about to be; a child to be awaited exists, does not wait for
      `gather` itself, and no start of it, such as `gather`'s own, is pending. */
  lemma NextMoveExactly(s: State, p: Program, l: nat, v: int)
    requires Inv(s, None) && Gathering(s, p) && OnThread(s, l) && Top(s, l) == p.coroutine
    ensures Enabled(s, NextMove(s, p, l, v)) <==>
            match NextMove(s, p, l, v)
            case Start(_, c) => c in s.frames && s.frames[c].phase.Initial? && !StartPending(s, c)
            case AwaitTask(_, c) => c in s.frames && !WaitsFor(s, c, p.coroutine) && !StartPending(s, c)
            case other => true
  {
    hide Queues, Deliveries, Acyclic, WaitsFor;
    if p.started == |p.children| && |p.awaits| < |p.children| {
      NextIsUnawaited(s, p);
    }
  }

  // ---- Children of another loop --------------------------------------------

  /** `gather`'s coroutine, 0, runs on loop 0; its only child, 1, belongs to loop 1. */
  const REMOTE := State(
    map[0 := Frame(0, Running, None), 1 := Frame(1, Initial, None)], map[], map[], [], [[0], []], [[], []], 2)

  /** `gather` has started the child. */
  const STARTED := REMOTE.(queues := [[], [1]])

  lemma RemoteIsReached()
    ensures Reached(2, [Create(0)] + ([Create(1)] + ([Start(0, 0)] + []))) == REMOTE && Inv(REMOTE, None)
  {
    hide Inv, Run;
    InitiallyHolds(2);
    var s0 := Initially(2);
    CoroutineLimits.RunCreate(s0, 0, [Create(1)] + ([Start(0, 0)] + []));
    var s1 := CreateStep(s0, 0);
    CoroutineLimits.RunCreate(s1, 1, [Start(0, 0)] + []);
    var s2 := CreateStep(s1, 1);
    CoroutineLimits.RunStart(s2, 0, 0, []);
    var s3 := Enter(s2, 0, 0);
    CoroutineLimits.RunNone(s3);
    assert s3.frames == REMOTE.frames && s3.stacks[0] == [0] && s3.stacks == [[0], []] && s3.queues == [[], []];
  }

  lemma StartedIsNext()
    requires Inv(REMOTE, None)
    ensures Enabled(REMOTE, Start(0, 1)) && Step(REMOTE, Start(0, 1)) == STARTED && Inv(STARTED, None)
  {
    hide Inv;
    StepKeeps(REMOTE, Start(0, 1));
    var r := Enter(REMOTE, 0, 1);
    assert r.queues[1] == [1] && r.queues == [[], [1]];
  }

  /** What `gather` does, all by itself, with a child of another loop: it starts it and then
      awaits it while that start is pending. The runtime does not bear this await: the child
      is queued twice. */
  lemma RemoteChildHappens()
    ensures var p := Program(0, [1], [0], 0, []);
            var s0 := Reached(2, [Create(0)] + ([Create(1)] + ([Start(0, 0)] + [])));
            var p1 := p.(started := 1);
            && Begins(s0, p) && Inv(s0, None) && Acts(s0, p, Start(0, 1)) && ItsTurn(s0, p, Start(0, 1))
            && Enabled(s0, Start(0, 1)) && Step(s0, Start(0, 1)) == STARTED && Onward(s0, p, Start(0, 1)) == p1
            && OnThread(STARTED, 0) && Top(STARTED, 0) == p1.coroutine
            && Gather.IsOrder(p1.order, |p1.children|) && NextMove(STARTED, p1, 0, 0) == AwaitTask(0, 1)
            && !Enabled(STARTED, AwaitTask(0, 1)) && StartPending(STARTED, 1)
            && AwaitTaskReady(STARTED, 0, 1) && AwaitTaskStep(STARTED, 0, 1).queues == [[], [1, 1]]
  {
    hide Inv, Reached, Step;
    RemoteIsReached();
    StartedIsNext();
    assert AwaitTaskStep(STARTED, 0, 1).queues[1] == [1, 1];
  }

  // ---- What a step leaves alone --------------------------------------------

  /** `f` stays on its loop; begun, it stays begun; neither begun nor queued, it stays so. */
  ghost predicate Untouched(s: State, r: State, f: Id) {
    f in s.frames ==>
      && f in r.frames && r.frames[f].loop == s.frames[f].loop
      && (!s.frames[f].phase.Initial? ==> !r.frames[f].phase.Initial?)
      && (s.frames[f].phase.Initial? && InNoQueue(s, f) ==> r.frames[f].phase.Initial? && InNoQueue(r, f))
  }

  lemma UntouchedTwice(s: State, s1: State, r: State, f: Id)
    requires Untouched(s, s1, f) && Untouched(s1, r, f)
    ensures Untouched(s, r, f)
  {
    hide InNoQueue;
  }

  lemma EnterUntouched(s: State, l: nat, g: Id, f: Id)
    requires l < |s.stacks| && Resumable(s, g) && s.frames[g].loop < |s.queues|
    requires f != g || !s.frames[g].phase.Initial?
    ensures Untouched(s, Enter(s, l, g), f)
  {
  }

  lemma AwaitUntouched(s: State, l: nat, child: Id, f: Id)
    requires AwaitTaskReady(s, l, child) && child != Top(s, l)
    requires f != child || !s.frames[child].phase.Initial?
    ensures Untouched(s, AwaitTaskStep(s, l, child), f)
  {
    var frame := s.frames[child];
    if !frame.phase.Finished? && frame.parent.None? {
      BlockedStacks(s, l, child);
      assert Untouched(s, Blocked(s, l, child), f);
      if frame.phase.Initial? {
        hide Untouched, Blocked;
        EnterUntouched(Blocked(s, l, child), l, child, f);
        UntouchedTwice(s, Blocked(s, l, child), AwaitTaskStep(s, l, child), f);
      }
    }
  }

  lemma ReturnUntouched(s: State, l: nat, o: Outcome, f: Id)
    requires OnThread(s, l) && ParentReady(s, Top(s, l)) && s.frames[Top(s, l)].phase.Running?
    ensures Untouched(s, ReturnStep(s, l, o), f)
  {
    var parent := s.frames[Top(s, l)].parent;
    assert Untouched(s, Ended(s, l, o), f);
    if parent.Some? {
      var client := s.wrappers[parent.value].client;
      ParentIsNext(s, l, o);
      assert !Ended(s, l, o).frames[client].phase.Initial?;
      hide Untouched, Ended;
      EnterUntouched(Ended(s, l, o), l, client, f);
      UntouchedTwice(s, Ended(s, l, o), ReturnStep(s, l, o), f);
    }
  }

  lemma ResolveUntouched(s: State, l: nat, u: nat, o: Outcome, f: Id)
    requires l < |s.stacks| && u < |s.futures| && WaiterLoopKnown(s, u)
    ensures Untouched(s, ResolveStep(s, l, u, o), f)
  {
    assert Untouched(s, Settled(s, u, o), f);
    if LiveWaiter(s, u) {
      var client := s.wrappers[s.futures[u].waiter.value].client;
      WaiterIsNext(s, u, o);
      assert !Settled(s, u, o).frames[client].phase.Initial?;
      hide Untouched, Settled;
      EnterUntouched(Settled(s, u, o), l, client, f);
      UntouchedTwice(s, Settled(s, u, o), ResolveStep(s, l, u, o), f);
    }
  }

  lemma DispatchUntouched(s: State, l: nat, i: nat, f: Id)
    requires EntryReady(s, l, i) && l < |s.stacks|
    ensures Untouched(s, DispatchStep(s, l, i), f)
  {
  }

  lemma SleepUntouched(s: State, l: nat, f: Id)
    requires OnThread(s, l) && LoopKnown(s, Top(s, l)) && s.frames[Top(s, l)].phase.Running?
    ensures Untouched(s, SleepStep(s, l), f)
  {
  }

  lemma AwaitFutureUntouched(s: State, l: nat, u: nat, f: Id)
    requires OnThread(s, l) && FutureLogged(s, u) && s.frames[Top(s, l)].phase.Running?
    ensures Untouched(s, AwaitFutureStep(s, l, u), f)
  {
  }

  lemma CreateUntouched(s: State, loop: nat, f: Id)
    requires Links(s)
    ensures Untouched(s, CreateStep(s, loop), f)
  {
  }

  /** The step is not about `f`: it neither starts nor destroys it, nor awaits it unbegun. */
  predicate NotAbout(s: State, a: Action, f: Id) {
    match a
    case Start(_, g) => g != f
    case AwaitTask(_, g) => g == f && f in s.frames ==> !s.frames[f].phase.Initial?
    case Destroy(fs) => f !in fs
    case other => true
  }

  lemma StepUntouched(s: State, a: Action, f: Id)
    requires Inv(s, None) && Enabled(s, a) && NotAbout(s, a, f)
    ensures Untouched(s, Step(s, a), f)
  {
    hide Queues, Links, Acyclic, Deliveries, WaitsFor, Enter, Untouched, ParentReady;
    hide AwaitTaskStep, AwaitFutureStep, ReturnStep, ResolveStep, DispatchStep, SleepStep, CreateStep;
    StepKeeps(s, a);
    match a
    case Create(loop) => CreateUntouched(s, loop, f);
    case Start(l, g) => EnterUntouched(s, l, g, f);
    case AwaitTask(l, child) =>
      NotItself(s, child, Top(s, l));
      AwaitUntouched(s, l, child, f);
    case AwaitFuture(l, u) =>
      TopRuns(s, l);
      AwaitFutureUntouched(s, l, u, f);
    case Return(l, o) =>
      TopRuns(s, l);
      ReturnUntouched(s, l, o, f);
    case Resolve(l, u, o) => ResolveUntouched(s, l, u, o, f);
    case Sleep(l) =>
      TopRuns(s, l);
      SleepUntouched(s, l, f);
    case Dispatch(l, i) => DispatchUntouched(s, l, i, f);
    case other => SameFrames(s, Step(s, a), f);
  }

  lemma SameFrames(s: State, r: State, f: Id)
    requires f in s.frames ==> f in r.frames && r.frames[f] == s.frames[f]
    requires r.queues == s.queues
    ensures Untouched(s, r, f)
  {
  }

  // ---- Children that are left alone ----------------------------------------

  /** Apart from `gather`, nobody starts a child or destroys one without `gather` itself. */
  predicate LeavesAlone(s: State, p: Program, a: Action) {
    Acts(s, p, a) ||
    match a
    case Start(_, f) => f !in p.children
    case Destroy(fs) => (exists c <- p.children :: c in fs) ==> p.coroutine in fs
    case other => true
  }

  /** As long as `gather`'s frame exists: its children do, on its own loop, and exactly those it
      has started are begun; the others are in no queue. */
  ghost predicate OwnLoop(s: State, p: Program, loop: nat) {
    && p.coroutine !in p.children && p.coroutine < s.next
    && (p.coroutine in s.frames ==>
          && s.frames[p.coroutine].loop == loop
          && forall i :: 0 <= i < |p.children| ==> ChildReady(s, p, loop, i))
  }

  ghost predicate ChildReady(s: State, p: Program, loop: nat, i: nat)
    requires i < |p.children|
  {
    var c := p.children[i];
    && c in s.frames && s.frames[c].loop == loop
    && if i < p.started then !s.frames[c].phase.Initial? else s.frames[c].phase.Initial? && InNoQueue(s, c)
  }

  lemma OnlyCreateAdds(s: State, a: Action, f: Id)
    requires Inv(s, None) && Enabled(s, a) && f < s.next
    ensures f < Step(s, a).next && (f in Step(s, a).frames ==> f in s.frames)
  {
    hide Queues, Stacks, Links, Acyclic, Deliveries, WaitsFor, Enter, Ended, Settled;
    hide AwaitTaskStep, ReturnStep, ResolveStep, DispatchStep;
    StepKeeps(s, a);
    match a
    case Start(l, g) => EnterKeepsFrames(s, l, g);
    case AwaitTask(l, child) => AwaitKeepsFrames(s, l, child);
    case Return(l, o) => ReturnKeepsFrames(s, l, o);
    case Resolve(l, u, o) => ResolveKeepsFrames(s, l, u, o);
    case Dispatch(l, i) => DispatchKeepsFrames(s, l, i);
    case other =>
  }

  /** The same frames exist, and no identifier is given back. */
  predicate KeepsFrames(s: State, r: State) {
    r.frames.Keys == s.frames.Keys && r.next >= s.next
  }

  lemma EnterKeepsFrames(s: State, l: nat, g: Id)
    requires l < |s.stacks| && Resumable(s, g) && s.frames[g].loop < |s.queues|
    ensures KeepsFrames(s, Enter(s, l, g))
  {
  }

  lemma AwaitKeepsFrames(s: State, l: nat, child: Id)
    requires AwaitTaskReady(s, l, child)
    ensures KeepsFrames(s, AwaitTaskStep(s, l, child))
  {
  }

  lemma ReturnKeepsFrames(s: State, l: nat, o: Outcome)
    requires OnThread(s, l) && ParentReady(s, Top(s, l))
    ensures KeepsFrames(s, ReturnStep(s, l, o))
  {
  }

  lemma ResolveKeepsFrames(s: State, l: nat, u: nat, o: Outcome)
    requires l < |s.stacks| && u < |s.futures| && WaiterLoopKnown(s, u)
    ensures KeepsFrames(s, ResolveStep(s, l, u, o))
  {
  }

  lemma DispatchKeepsFrames(s: State, l: nat, i: nat)
    requires EntryReady(s, l, i) && l < |s.stacks|
    ensures KeepsFrames(s, DispatchStep(s, l, i))
  {
  }

  lemma OwnStartBegins(s: State, l: nat, c: Id)
    requires Inv(s, None) && OnThread(s, l) && Enabled(s, Start(l, c)) && s.frames[c].loop == s.frames[Top(s, l)].loop
    ensures var r := Step(s, Start(l, c));
            c in r.frames && r.frames[c].loop == s.frames[c].loop && !r.frames[c].phase.Initial?
  {
    hide Queues, Links, Acyclic, Deliveries, WaitsFor;
    StepKeeps(s, Start(l, c));
    TopRuns(s, l);
  }

  lemma ChildStays(s: State, p: Program, loop: nat, a: Action, i: nat)
    requires Inv(s, None) && Gathering(s, p) && OwnLoop(s, p, loop) && i < |p.children|
    requires Enabled(s, a) && Follows(s, p, a) && LeavesAlone(s, p, a)
    requires p.coroutine in s.frames && p.coroutine in Step(s, a).frames
    ensures ChildReady(Step(s, a), Onward(s, p, a), loop, i)
  {
    hide Inv, Gathering, Enabled, InNoQueue;
    var c := p.children[i];
    assert ChildReady(s, p, loop, i);
    if a.Start? && a.f == c {
      OwnChildStarts(s, p, loop, a, i);
    } else {
      ChildIsNotMeant(s, p, loop, a, i);
      StepUntouched(s, a, c);
    }
  }

  lemma OwnChildStarts(s: State, p: Program, loop: nat, a: Action, i: nat)
    requires Inv(s, None) && Gathering(s, p) && OwnLoop(s, p, loop) && i < |p.children| && p.coroutine in s.frames
    requires Enabled(s, a) && Follows(s, p, a) && LeavesAlone(s, p, a) && a.Start? && a.f == p.children[i]
    ensures ChildReady(Step(s, a), Onward(s, p, a), loop, i)
  {
    hide Inv, Step, InNoQueue;
    assert ChildReady(s, p, loop, i);
    assert Acts(s, p, a) && i == p.started;
    OwnStartBegins(s, a.l, a.f);
  }

  lemma ChildIsNotMeant(s: State, p: Program, loop: nat, a: Action, i: nat)
    requires Inv(s, None) && Gathering(s, p) && i < |p.children| && ChildReady(s, p, loop, i)
    requires Enabled(s, a) && Follows(s, p, a) && LeavesAlone(s, p, a) && !(a.Start? && a.f == p.children[i])
    requires p.coroutine in Step(s, a).frames
    ensures NotAbout(s, a, p.children[i])
    ensures i < Onward(s, p, a).started <==> i < p.started
  {
    hide Inv, InNoQueue, Gathering, Enabled;
    assert p.children[i] in p.children;
    StepKeeps(s, a);
  }

  lemma StepKeepsOwnLoop(s: State, p: Program, loop: nat, a: Action)
    requires Inv(s, None) && Gathering(s, p) && OwnLoop(s, p, loop)
    requires Enabled(s, a) && Follows(s, p, a) && LeavesAlone(s, p, a)
    ensures OwnLoop(Step(s, a), Onward(s, p, a), loop)
  {
    hide Inv, Gathering, Enabled, Step, ChildReady, Follows, LeavesAlone;
    var r, q := Step(s, a), Onward(s, p, a);
    OnlyCreateAdds(s, a, p.coroutine);
    if p.coroutine in r.frames {
      CoroutineStays(s, p, a);
      forall i | 0 <= i < |p.children|
        ensures ChildReady(r, q, loop, i)
      {
        ChildStays(s, p, loop, a, i);
      }
    }
  }

  lemma CoroutineStays(s: State, p: Program, a: Action)
    requires Inv(s, None) && Enabled(s, a) && p.coroutine in s.frames && p.coroutine in Step(s, a).frames
    ensures Step(s, a).frames[p.coroutine].loop == s.frames[p.coroutine].loop
  {
    hide Queues, Links, Acyclic, Deliveries, WaitsFor;
    if NotAbout(s, a, p.coroutine) {
      StepUntouched(s, a, p.coroutine);
    } else if a.AwaitTask? {
      StepKeeps(s, a);
      NotItself(s, a.child, Top(s, a.l));
      AwaitKeepsLoop(s, a.l, a.child);
    } else {
      StepKeeps(s, a);
    }
  }

  lemma AwaitKeepsLoop(s: State, l: nat, child: Id)
    requires AwaitTaskReady(s, l, child) && child != Top(s, l)
    ensures var r := AwaitTaskStep(s, l, child); child in r.frames && r.frames[child].loop == s.frames[child].loop
  {
    if !s.frames[child].phase.Finished? && s.frames[child].parent.None? {
      BlockedStacks(s, l, child);
    }
  }

  // ---- The runs ------------------------------------------------------------

  /** Along the run everybody else leaves the children alone. */
  ghost predicate LeftAlone(s: State, p: Program, actions: seq<Action>)
    requires Inv(s, None)
    decreases |actions|
  {
    actions == [] ||
    if Enabled(s, actions[0]) && Follows(s, p, actions[0]) then
      LeavesAlone(s, p, actions[0]) && LeftAlone(Step(s, actions[0]), Onward(s, p, actions[0]), actions[1..])
    else LeftAlone(s, p, actions[1..])
  }

  ghost predicate ReachedLeftAlone(loops: nat, before: seq<Action>, p: Program, actions: seq<Action>) {
    EveryReachedState(loops, before);
    LeftAlone(Reached(loops, before), p, actions)
  }

  lemma {:induction false} RunKeepsOwnLoop(s: State, p: Program, loop: nat, actions: seq<Action>)
    requires Inv(s, None) && Gathering(s, p) && OwnLoop(s, p, loop) && LeftAlone(s, p, actions)
    ensures var (r, q) := RunWith(s, p, actions); OwnLoop(r, q, loop)
    decreases |actions|
  {
    hide Inv, Enabled, Step, Follows, Gathering, OwnLoop, LeavesAlone;
    if actions != [] {
      var a := actions[0];
      if Enabled(s, a) && Follows(s, p, a) {
        StepKeepsGathering(s, p, a);
        StepKeepsOwnLoop(s, p, loop, a);
        RunKeepsOwnLoop(Step(s, a), Onward(s, p, a), loop, actions[1..]);
      } else {
        RunKeepsOwnLoop(s, p, loop, actions[1..]);
      }
    }
  }

  /** Unbegun children, in no queue, all on `gather`'s own loop. */
  ghost predicate FreshChildren(s: State, p: Program) {
    && p.coroutine in s.frames && p.coroutine !in p.children
    && forall i :: 0 <= i < |p.children| ==>
         && p.children[i] in s.frames && s.frames[p.children[i]].phase.Initial?
         && s.frames[p.children[i]].loop == s.frames[p.coroutine].loop
         && InNoQueue(s, p.children[i])
  }

  lemma FreshIsOwnLoop(s: State, p: Program)
    requires Inv(s, None) && Begins(s, p) && FreshChildren(s, p)
    ensures OwnLoop(s, p, s.frames[p.coroutine].loop)
  {
    hide Queues, Stacks, Acyclic, Deliveries;
  }

  lemma OwnLoopMoves(s: State, p: Program, loop: nat, l: nat, v: int)
    requires Inv(s, None) && Gathering(s, p) && OwnLoop(s, p, loop)
    requires OnThread(s, l) && Top(s, l) == p.coroutine
    ensures var move := NextMove(s, p, l, v);
            Enabled(s, move) <==> !(move.AwaitTask? && WaitsFor(s, move.child, p.coroutine))
  {
    NextMoveExactly(s, p, l, v);
    LoopsAreKnown(s);
    hide Inv, WaitsFor, Enabled, Gathering;
    if p.started < |p.children| {
      assert ChildReady(s, p, loop, p.started);
    } else if |p.awaits| < |p.children| {
      GatheringOrder(s, p);
      assert ChildReady(s, p, loop, p.order[|p.awaits|]);
    }
  }

  lemma LoopsAreKnown(s: State)
    requires Inv(s, None)
    ensures forall f :: f in s.frames ==> s.frames[f].loop < |s.queues|
  {
  }

  lemma GatheringOrder(s: State, p: Program)
    requires Gathering(s, p) && |p.awaits| < |p.children|
    ensures Gather.IsOrder(p.order, |p.children|) && p.order[|p.awaits|] < |p.children|
  {
  }

  /** Over every run in which others leave the children alone: with unbegun children on its own
      loop, whenever `gather` has its turn it can make its next move, unless that is to await
      a child that, directly or not, waits for `gather` itself. */
  lemma GatherGoesOn(loops: nat, before: seq<Action>, p: Program, actions: seq<Action>, l: nat, v: int)
    requires Begins(Reached(loops, before), p) && FreshChildren(Reached(loops, before), p)
    requires ReachedLeftAlone(loops, before, p, actions)
    requires var (s, q) := ReachedWith(loops, before, p, actions); OnThread(s, l) && Top(s, l) == q.coroutine
    ensures var (s, q) := ReachedWith(loops, before, p, actions);
            && Gather.IsOrder(q.order, |q.children|) && |q.awaits| <= |q.children|
            && var move := NextMove(s, q, l, v);
               && Acts(s, q, move) && ItsTurn(s, q, move)
               && (Enabled(s, move) <==> !(move.AwaitTask? && WaitsFor(s, move.child, q.coroutine)))
  {
    hide Inv, Reached, Answers, RunWith, Begins, FreshChildren, WaitsFor, Enabled, LeftAlone, OwnLoop;
    var s0 := Reached(loops, before);
    EveryReachedState(loops, before);
    EveryAnswer(loops, before);
    BeginsGathering(s0, p);
    FreshAreThere(s0, p);
    FreshIsOwnLoop(s0, p);
    RunKeepsGathering(s0, p, actions);
    RunKeepsOwnLoop(s0, p, s0.frames[p.coroutine].loop, actions);
    var (s, q) := RunWith(s0, p, actions);
    NextMoveIsItsTurn(s, q, l, v);
    OwnLoopMoves(s, q, s0.frames[p.coroutine].loop, l, v);
  }

  lemma FreshAreThere(s: State, p: Program)
    requires FreshChildren(s, p)
    ensures p.coroutine in s.frames
  {
  }
}
