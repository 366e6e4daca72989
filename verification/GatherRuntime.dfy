/** `gather` as a program of the coroutine runtime: a coroutine that starts each child, awaits
    each in turn, and ends with the values or with the first exception, among whatever else
    the program does. What it ends with is what the sequential map over its children gives. */
module GatherRuntime {
  import opened Text
  import opened Coroutines
  import opened CoroutineInvariants
  import opened CoroutineRuns
  import opened CoroutineAnswers
  import Gather
  import Tasks

  // ---- The program ---------------------------------------------------------

  /** `gather`'s frame: how many children it has started and the wrappers of its awaits. */
  datatype Program = Program(coroutine: Id, children: seq<Id>, order: seq<nat>, started: nat, awaits: seq<Id>)

  /** `gather`'s coroutine is the one that acts. */
  predicate Acts(s: State, p: Program, a: Action) {
    match a
    case Start(l, _) => OnThread(s, l) && Top(s, l) == p.coroutine
    case AwaitTask(l, _) => OnThread(s, l) && Top(s, l) == p.coroutine
    case AwaitFuture(l, _) => OnThread(s, l) && Top(s, l) == p.coroutine
    case Resolve(l, _, _) => OnThread(s, l) && Top(s, l) == p.coroutine
    case Sleep(l) => OnThread(s, l) && Top(s, l) == p.coroutine
    case Return(l, _) => OnThread(s, l) && Top(s, l) == p.coroutine
    case other => false
  }

  predicate GaveValue(s: State, w: Id) {
    w in s.wrappers && s.wrappers[w].outcome.Some? && s.wrappers[w].outcome.value.Value?
  }

  /** Nothing is awaited yet, or the last await gave a value. */
  predicate GoesOn(s: State, p: Program) {
    p.awaits == [] || GaveValue(s, p.awaits[|p.awaits| - 1])
  }

  /** What the body of `gather` does next. */
  predicate ItsTurn(s: State, p: Program, a: Action) {
    match a
    case Start(_, f) => p.started < |p.children| && f == p.children[p.started]
    case AwaitTask(_, c) =>
      && p.started == |p.children| && GoesOn(s, p)
      && |p.awaits| < |p.order| && p.order[|p.awaits|] < |p.children| && c == p.children[p.order[|p.awaits|]]
    case Return(_, o) =>
      && p.started == |p.children|
      && if GoesOn(s, p) then |p.awaits| == |p.children| && o.Value?
         else p.awaits[|p.awaits| - 1] in s.wrappers && s.wrappers[p.awaits[|p.awaits| - 1]].outcome == Some(o)
    case other => false
  }

  /** The coroutine follows its body, and nobody else awaits its children. */
  predicate Follows(s: State, p: Program, a: Action) {
    if Acts(s, p, a) then ItsTurn(s, p, a) else a.AwaitTask? ==> a.child !in p.children
  }

  function Onward(s: State, p: Program, a: Action): Program {
    if !Acts(s, p, a) then p
    else match a
         case Start(_, _) => p.(started := p.started + 1)
         case AwaitTask(_, _) => p.(awaits := p.awaits + [s.next])
         case other => p
  }

  /** A coroutine that has done nothing yet, for children nobody awaits. */
  ghost predicate Begins(s: State, p: Program) {
    && Gather.IsOrder(p.order, |p.children|) && Distinct(p.children)
    && p.started == 0 && p.awaits == [] && p.coroutine in s.frames && !s.frames[p.coroutine].phase.Finished?
    && forall w :: w in s.wrappers && s.wrappers[w].target.OnTask? ==> s.wrappers[w].target.child !in p.children
  }

  /** The actions in order; one that is not enabled, or that the program does not allow, is
      left out. */
  ghost function RunWith(s: State, p: Program, actions: seq<Action>): (State, Program)
    requires Inv(s, None)
    decreases |actions|
  {
    if actions == [] then (s, p)
    else if Enabled(s, actions[0]) && Follows(s, p, actions[0]) then
      RunWith(Step(s, actions[0]), Onward(s, p, actions[0]), actions[1..])
    else RunWith(s, p, actions[1..])
  }

  ghost function ReachedWith(loops: nat, before: seq<Action>, p: Program, actions: seq<Action>): (State, Program) {
    EveryReachedState(loops, before);
    RunWith(Reached(loops, before), p, actions)
  }

  // ---- The invariant -------------------------------------------------------

  /** The `k`th await is the coroutine's own, of the child whose turn it was. */
  predicate InTurn(s: State, p: Program, k: nat)
    requires Gather.IsOrder(p.order, |p.children|) && k < |p.awaits| <= |p.children|
  {
    && p.awaits[k] in s.wrappers && s.wrappers[p.awaits[k]].client == p.coroutine
    && s.wrappers[p.awaits[k]].target == OnTask(p.children[p.order[k]])
  }

  /** What the coroutine has ended with. */
  predicate EndsWith(s: State, p: Program, o: Outcome) {
    && p.started == |p.children|
    && if GoesOn(s, p) then |p.awaits| == |p.children| && o.Value?
       else p.awaits[|p.awaits| - 1] in s.wrappers && s.wrappers[p.awaits[|p.awaits| - 1]].outcome == Some(o)
  }

  ghost predicate Gathering(s: State, p: Program) {
    && Gather.IsOrder(p.order, |p.children|) && Distinct(p.children)
    && p.started <= |p.children| && |p.awaits| <= |p.children|
    && (p.awaits != [] ==> p.started == |p.children|)
    && (forall k :: 0 <= k < |p.awaits| ==> InTurn(s, p, k))
    && (forall k :: 0 <= k < |p.awaits| - 1 ==> GaveValue(s, p.awaits[k]))
    && (forall w :: w in s.wrappers && s.wrappers[w].target.OnTask? && s.wrappers[w].target.child in p.children ==>
          w in p.awaits)
    && (p.coroutine in s.results ==> EndsWith(s, p, s.results[p.coroutine]))
  }

  lemma BeginsGathering(s: State, p: Program)
    requires Inv(s, None) && Begins(s, p)
    ensures Gathering(s, p)
  {
    hide Stacks, Queues, Links, Acyclic;
  }

  /** Whoever acts is running, and has not ended. */
  lemma ActingIsRunning(s: State, p: Program, a: Action)
    requires Inv(s, None) && Acts(s, p, a)
    ensures p.coroutine in s.frames && s.frames[p.coroutine].phase.Running? && p.coroutine !in s.results
  {
    hide Queues, Links, Acyclic;
  }

  /** Its awaits so far are left as they are. */
  lemma AwaitsStay(s: State, p: Program, r: State)
    requires Gathering(s, p) && Final(s, r)
    ensures forall k :: 0 <= k < |p.awaits| ==> InTurn(r, p, k)
    ensures forall k :: 0 <= k < |p.awaits| && GaveValue(s, p.awaits[k]) ==> GaveValue(r, p.awaits[k])
  {
    forall k | 0 <= k < |p.awaits|
      ensures InTurn(r, p, k) && (GaveValue(s, p.awaits[k]) ==> GaveValue(r, p.awaits[k]))
    {
      assert InTurn(s, p, k);
    }
  }

  lemma AwaitsGrow(s: State, p: Program, a: Action)
    requires Inv(s, None) && Gathering(s, p) && Enabled(s, a) && Follows(s, p, a)
    ensures var r, q := Step(s, a), Onward(s, p, a);
            && |q.awaits| <= |q.children| && q.started <= |q.children|
            && (q.awaits != [] ==> q.started == |q.children|)
            && (forall k :: 0 <= k < |q.awaits| ==> InTurn(r, q, k))
            && (forall k :: 0 <= k < |q.awaits| - 1 ==> GaveValue(r, q.awaits[k]))
  {
    hide Step, Inv, Enabled;
    var r, q := Step(s, a), Onward(s, p, a);
    OutcomesAreFinal(s, a);
    AwaitsStay(s, p, r);
    forall k | 0 <= k < |p.awaits|
      ensures InTurn(r, q, k)
    {
      assert InTurn(r, p, k);
    }
    if a.AwaitTask? && Acts(s, p, a) {
      NewWrapperIsThere(s, a.l, a.child);
      StepChanges(s, a);
      assert Change(s, a, r, s.next);
      assert InTurn(r, q, |p.awaits|);
    }
  }

  lemma ChildrenStayOwn(s: State, p: Program, a: Action)
    requires Inv(s, None) && Gathering(s, p) && Enabled(s, a) && Follows(s, p, a)
    ensures var r, q := Step(s, a), Onward(s, p, a);
            forall w :: w in r.wrappers && r.wrappers[w].target.OnTask? && r.wrappers[w].target.child in q.children ==>
              w in q.awaits
  {
    hide Step, Inv, Enabled;
    var r, q := Step(s, a), Onward(s, p, a);
    OutcomesAreFinal(s, a);
    StepChanges(s, a);
    forall w | w in r.wrappers && r.wrappers[w].target.OnTask? && r.wrappers[w].target.child in q.children
      ensures w in q.awaits
    {
      if w in s.wrappers {
        assert SameAwait(s.wrappers[w], r.wrappers[w]);
      } else {
        assert Change(s, a, r, w);
      }
    }
  }

  lemma EndingStays(s: State, p: Program, a: Action)
    requires Inv(s, None) && Gathering(s, p) && Enabled(s, a) && Follows(s, p, a)
    ensures var r, q := Step(s, a), Onward(s, p, a);
            q.coroutine in r.results ==> EndsWith(r, q, r.results[q.coroutine])
  {
    hide Step, Inv, Enabled;
    var r, q := Step(s, a), Onward(s, p, a);
    OutcomesAreFinal(s, a);
    StepChanges(s, a);
    AwaitsStay(s, p, r);
    if p.awaits != [] {
      assert InTurn(s, p, |p.awaits| - 1);
    }
    if Acts(s, p, a) {
      ActingIsRunning(s, p, a);
    }
  }

  lemma StepKeepsGathering(s: State, p: Program, a: Action)
    requires Inv(s, None) && Gathering(s, p) && Enabled(s, a) && Follows(s, p, a)
    ensures Gathering(Step(s, a), Onward(s, p, a))
  {
    hide Step, Inv, Enabled, Follows, ItsTurn, EndsWith, InTurn, GaveValue;
    AwaitsGrow(s, p, a);
    ChildrenStayOwn(s, p, a);
    EndingStays(s, p, a);
  }

  lemma {:induction false} RunKeepsGathering(s: State, p: Program, actions: seq<Action>)
    requires Inv(s, None) && Answers(s) && Gathering(s, p)
    ensures var (r, q) := RunWith(s, p, actions); Inv(r, None) && Answers(r) && Gathering(r, q)
    ensures var (r, q) := RunWith(s, p, actions);
            q.children == p.children && q.order == p.order && q.coroutine == p.coroutine
    decreases |actions|
  {
    hide Inv, Enabled, Step, Follows, Gathering, Answers;
    if actions != [] {
      var a := actions[0];
      if Enabled(s, a) && Follows(s, p, a) {
        StepKeepsGathering(s, p, a);
        StepKeepsAnswers(s, a);
        RunKeepsGathering(Step(s, a), Onward(s, p, a), actions[1..]);
      } else {
        RunKeepsGathering(s, p, actions[1..]);
      }
    }
  }

  // ---- What it amounts to --------------------------------------------------

  /** The number that stands for the "Double await on a task" error. */
  const DOUBLE_AWAIT := -1

  function EndingOf(o: Outcome): Tasks.Ending {
    match o
    case Value(v) => Tasks.Value(v)
    case Exception(e) => Tasks.Exception(e)
    case DoubleAwait => Tasks.Exception(DOUBLE_AWAIT)
  }

  /** A child as `gather` sees it: finished if it has a result. */
  function TaskOf(s: State, c: Id): Tasks.Task {
    if c in s.results then Tasks.Done(EndingOf(s.results[c])) else Tasks.Suspended
  }

  function TasksOf(s: State, children: seq<Id>): (tasks: seq<Tasks.Task>)
    ensures |tasks| == |children|
    ensures forall i :: 0 <= i < |children| ==> tasks[i] == TaskOf(s, children[i])
  {
    seq(|children|, i requires 0 <= i < |children| => TaskOf(s, children[i]))
  }

  /** What one await was given is how its child ended: nobody else awaits the child, so it is
      not refused. While the coroutine waits, the child has not ended. */
  lemma AwaitTells(s: State, p: Program, k: nat)
    requires Inv(s, None) && Answers(s) && Gathering(s, p) && k < |p.awaits|
    ensures InTurn(s, p, k)
    ensures var outcome := s.wrappers[p.awaits[k]].outcome;
            var task := TaskOf(s, p.children[p.order[k]]);
            && (outcome.Some? ==> task == Tasks.Done(EndingOf(outcome.value)))
            && (outcome.None? && p.coroutine in s.frames ==> task == Tasks.Suspended)
  {
    hide Stacks, Queues, Acyclic;
    var w, c := p.awaits[k], p.children[p.order[k]];
    assert InTurn(s, p, k) && Justified(s, w);
    if s.wrappers[w].outcome.Some? {
      forall v: Id | WaitedOn(s, v, c)
        ensures v == w
      {
        var j :| 0 <= j < |p.awaits| && p.awaits[j] == v;
        assert InTurn(s, p, j);
      }
    } else if p.coroutine in s.frames {
      assert Delivered(s, s.wrappers[w], w);
      assert Link(s, p.coroutine, w);
    }
  }

  /** The answer of the sequential map over the children, in their present state. */
  function MapAnswer(s: State, p: Program): Option<Gather.Answer>
    requires Gather.IsOrder(p.order, |p.children|)
  {
    Gather.Sequential(TasksOf(s, p.children), p.order, 0)
  }

  predicate Waits(s: State, p: Program) {
    && p.coroutine in s.frames && p.awaits != []
    && var w := p.awaits[|p.awaits| - 1];
       w in s.wrappers && s.wrappers[w].outcome.None?
  }

  /** While the coroutine waits the map has no answer; when it has ended, the map answers
      with all values if it ended with a value, and with its exception otherwise. */
  lemma GatheringAnswers(s: State, p: Program)
    requires Inv(s, None) && Answers(s) && Gathering(s, p)
    ensures Waits(s, p) ==> MapAnswer(s, p) == None
    ensures p.coroutine in s.results ==>
              var tasks := TasksOf(s, p.children);
              MapAnswer(s, p) == match EndingOf(s.results[p.coroutine])
                                 case Value(_) => Some(Gather.Values(Gather.ValuesOf(tasks)))
                                 case Exception(e) => Some(Gather.Threw(e))
  {
    hide Inv, Answers;
    var tasks, n := TasksOf(s, p.children), |p.awaits|;
    forall k | 0 <= k < n
      ensures InTurn(s, p, k)
      ensures GaveValue(s, p.awaits[k]) ==> Gather.Succeeded(tasks[p.order[k]])
    {
      AwaitTells(s, p, k);
    }
    if n > 0 {
      AwaitTells(s, p, n - 1);
      Gather.SucceededAreSkipped(tasks, p.order, n - 1);
      if GoesOn(s, p) {
        Gather.SucceededAreSkipped(tasks, p.order, n);
      }
    }
  }

  /** From any reachable state in which `gather` begins, whatever else the program does: no
      child is awaited before all are started; each await is given how its child ended; while
      `gather` waits the sequential map has no answer; and when it has ended it has ended as
      the map does. */
  lemma GatherOnTheRuntime(loops: nat, before: seq<Action>, p: Program, actions: seq<Action>)
    requires Begins(Reached(loops, before), p)
    ensures var (s, q) := ReachedWith(loops, before, p, actions);
            && q.children == p.children && q.order == p.order && q.coroutine == p.coroutine
            && |q.awaits| <= |q.children| && (q.awaits != [] ==> q.started == |q.children|)
            && (forall k :: 0 <= k < |q.awaits| ==>
                  && InTurn(s, q, k)
                  && var outcome := s.wrappers[q.awaits[k]].outcome;
                     outcome.Some? ==> TaskOf(s, q.children[q.order[k]]) == Tasks.Done(EndingOf(outcome.value)))
            && (Waits(s, q) ==> MapAnswer(s, q) == None)
            && (q.coroutine in s.results ==>
                  MapAnswer(s, q) == match EndingOf(s.results[q.coroutine])
                                     case Value(_) => Some(Gather.Values(Gather.ValuesOf(TasksOf(s, q.children))))
                                     case Exception(e) => Some(Gather.Threw(e)))
  {
    hide Inv, Reached, Answers, RunWith, Begins;
    var s0 := Reached(loops, before);
    EveryReachedState(loops, before);
    EveryAnswer(loops, before);
    BeginsGathering(s0, p);
    RunKeepsGathering(s0, p, actions);
    var (s, q) := RunWith(s0, p, actions);
    GatheringAnswers(s, q);
    forall k | 0 <= k < |q.awaits|
      ensures InTurn(s, q, k)
      ensures var outcome := s.wrappers[q.awaits[k]].outcome;
              outcome.Some? ==> TaskOf(s, q.children[q.order[k]]) == Tasks.Done(EndingOf(outcome.value))
    {
      AwaitTells(s, q, k);
    }
  }
}
