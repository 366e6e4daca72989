/** `gather` of include/covent/gather.h: every task is started, then each is awaited in
    turn, while the tasks may complete at any time and in any order. */
module Gather {
  import opened Tasks
  import opened Text

  /** What `gather` itself returns or throws. */
  datatype Answer = Values(values: seq<int>) | Threw(e: int)

  /** `started` tasks have been started; the first `awaited` of `order` have been awaited.
      The order is that of the container; for a pack the language leaves it open. */
  datatype State = State(tasks: seq<Task>, order: seq<nat>, started: nat, awaited: nat, answer: Option<Answer>)

  /** Each of the `n` once. */
  predicate IsOrder(order: seq<nat>, n: nat) {
    && |order| == n
    && (forall i :: 0 <= i < n ==> order[i] < n)
    && (forall i :: 0 <= i < n ==> i in order)
    && (forall i, j :: 0 <= i < j < n ==> order[i] != order[j])
  }

  function Begun(n: nat, order: seq<nat>): State {
    Onward(State(seq(n, i => Unstarted), order, 0, 0, None))
  }

  // ---- The coroutine -------------------------------------------------------

  function ValueOf(t: Task): int {
    match t
    case Done(Value(v)) => v
    case other => 0
  }

  function ValuesOf(tasks: seq<Task>): (vs: seq<int>)
    ensures |vs| == |tasks| && forall i :: 0 <= i < |tasks| ==> vs[i] == ValueOf(tasks[i])
  {
    seq(|tasks|, i requires 0 <= i < |tasks| => ValueOf(tasks[i]))
  }

  /** Once all are started: awaits go through finished tasks, stop at one that is
      suspended, and end with the first exception. */
  function Onward(s: State): State
    decreases |s.order| - s.awaited
  {
    if s.started < |s.tasks| || s.answer.Some? then s
    else if s.awaited >= |s.order| then
      s.(answer := Some(Values(ValuesOf(s.tasks))))
    else if s.order[s.awaited] >= |s.tasks| then s
    else
      match s.tasks[s.order[s.awaited]]
      case Done(Value(_)) => Onward(s.(awaited := s.awaited + 1))
      case Done(Exception(e)) => s.(answer := Some(Threw(e)))
      case other => s
  }

  /** The next task is started and suspends, or completes at once. */
  function StartNext(s: State, task: Task): State
    requires s.started < |s.tasks|
  {
    Onward(s.(tasks := s.tasks[s.started := task], started := s.started + 1))
  }

  /** A suspended task completes; if it is the one awaited, `gather` goes on. */
  function Complete(s: State, i: nat, ending: Ending): State
    requires i < |s.tasks|
  {
    Onward(s.(tasks := s.tasks[i := Done(ending)]))
  }

  datatype Event = Starts(task: Task) | Completes(i: nat, ending: Ending)

  predicate CanHappen(s: State, e: Event) {
    match e
    case Starts(task) => s.started < |s.tasks| && !task.Unstarted?
    case Completes(i, _) => i < |s.tasks| && s.tasks[i].Suspended?
  }

  function Next(s: State, e: Event): State {
    if !CanHappen(s, e) then s
    else match e
         case Starts(task) => StartNext(s, task)
         case Completes(i, ending) => Complete(s, i, ending)
  }

  function Run(s: State, events: seq<Event>): State
    decreases |events|
  {
    if events == [] then s else Run(Next(s, events[0]), events[1..])
  }

  // ---- What it should be: a sequential map ----------------------------------

  /** Going through the tasks in `order` one after the other, from the `k`th: the first
      exception, or all the values, or nothing yet. */
  function Sequential(tasks: seq<Task>, order: seq<nat>, k: nat): Option<Answer>
    requires IsOrder(order, |tasks|) && k <= |order|
    decreases |order| - k
  {
    if k == |order| then Some(Values(ValuesOf(tasks)))
    else match tasks[order[k]]
         case Done(Value(_)) => Sequential(tasks, order, k + 1)
         case Done(Exception(e)) => Some(Threw(e))
         case other => None
  }

  predicate Succeeded(t: Task) {
    t.Done? && t.ending.Value?
  }

  /** Tasks before `started` have been started, those behind have not; nothing is awaited
      before all are started; the awaited ones have succeeded; and the answer is that of
      the sequential map, which stopped where it had to. */
  predicate Inv(s: State) {
    && IsOrder(s.order, |s.tasks|)
    && s.started <= |s.tasks| && s.awaited <= |s.order|
    && (forall i :: 0 <= i < |s.tasks| ==> (s.tasks[i].Unstarted? <==> i >= s.started))
    && (s.started < |s.tasks| ==> s.awaited == 0 && s.answer.None?)
    && (forall k :: 0 <= k < s.awaited ==> Succeeded(s.tasks[s.order[k]]))
    && (s.started == |s.tasks| ==> s.answer == Sequential(s.tasks, s.order, s.awaited))
  }

  lemma {:induction false} OnwardAnswers(s: State)
    requires IsOrder(s.order, |s.tasks|) && s.started == |s.tasks| && s.awaited <= |s.order|
    requires forall i :: 0 <= i < |s.tasks| ==> !s.tasks[i].Unstarted?
    requires forall k :: 0 <= k < s.awaited ==> Succeeded(s.tasks[s.order[k]])
    requires s.answer.Some? ==> s.answer == Sequential(s.tasks, s.order, s.awaited)
    ensures Inv(Onward(s)) && Onward(s).tasks == s.tasks && Onward(s).order == s.order
    decreases |s.order| - s.awaited
  {
    if s.answer.None? && s.awaited < |s.order| {
      if Succeeded(s.tasks[s.order[s.awaited]]) {
        OnwardAnswers(s.(awaited := s.awaited + 1));
      }
    }
  }

  /** What the sequential map has decided no later completion changes. */
  lemma {:induction false} SequentialIsStable(tasks: seq<Task>, order: seq<nat>, k: nat, i: nat, ending: Ending)
    requires IsOrder(order, |tasks|) && k <= |order| && i < |tasks| && tasks[i].Suspended?
    requires forall j :: 0 <= j < k ==> Succeeded(tasks[order[j]])
    requires Sequential(tasks, order, k).Some?
    ensures Sequential(tasks[i := Done(ending)], order, k) == Sequential(tasks, order, k)
    decreases |order| - k
  {
    assert i in order;
    if k < |order| && Succeeded(tasks[order[k]]) {
      SequentialIsStable(tasks, order, k + 1, i, ending);
    }
  }

  lemma NextKeeps(s: State, e: Event)
    requires Inv(s)
    ensures Inv(Next(s, e))
  {
    if CanHappen(s, e) {
      match e
      case Starts(task) =>
        if s.started + 1 == |s.tasks| {
          OnwardAnswers(s.(tasks := s.tasks[s.started := task], started := s.started + 1));
        }
      case Completes(i, ending) =>
        if s.started == |s.tasks| {
          if s.answer.Some? {
            SequentialIsStable(s.tasks, s.order, s.awaited, i, ending);
          }
          OnwardAnswers(s.(tasks := s.tasks[i := Done(ending)]));
        }
    }
  }

  lemma {:induction false} RunKeeps(s: State, events: seq<Event>)
    requires Inv(s)
    ensures Inv(Run(s, events))
    decreases |events|
  {
    if events != [] {
      NextKeeps(s, events[0]);
      RunKeeps(Next(s, events[0]), events[1..]);
    }
  }

  lemma BegunKeeps(n: nat, order: seq<nat>)
    requires IsOrder(order, n)
    ensures Inv(Begun(n, order))
  {
    var s := State(seq(n, i => Unstarted), order, 0, 0, None);
    if n == 0 {
      OnwardAnswers(s);
    }
  }

  /** No step changes which tasks are gathered, and in which order. */
  lemma {:induction false} OnwardIsFor(s: State)
    ensures Onward(s).order == s.order && Onward(s).tasks == s.tasks
    decreases |s.order| - s.awaited
  {
    if s.awaited < |s.order| {
      OnwardIsFor(s.(awaited := s.awaited + 1));
    }
  }

  lemma BegunIsFor(n: nat, order: seq<nat>)
    ensures Begun(n, order).order == order && |Begun(n, order).tasks| == n
  {
    OnwardIsFor(State(seq(n, i => Unstarted), order, 0, 0, None));
  }

  lemma {:induction false} RunIsFor(s: State, events: seq<Event>)
    ensures Run(s, events).order == s.order && |Run(s, events).tasks| == |s.tasks|
    decreases |events|
  {
    hide Onward;
    if events != [] {
      var e := events[0];
      if CanHappen(s, e) {
        match e
        case Starts(task) => OnwardIsFor(s.(tasks := s.tasks[s.started := task], started := s.started + 1));
        case Completes(i, ending) => OnwardIsFor(s.(tasks := s.tasks[i := Done(ending)]));
      }
      RunIsFor(Next(s, e), events[1..]);
    }
  }

  /** The first task of `order` from the `k`th on that did not succeed threw `e`. */
  predicate FirstException(tasks: seq<Task>, order: seq<nat>, k: nat, e: int)
    requires IsOrder(order, |tasks|)
  {
    && k < |order| && tasks[order[k]] == Done(Exception(e))
    && forall j :: 0 <= j < k ==> Succeeded(tasks[order[j]])
  }

  ghost predicate Thrown(tasks: seq<Task>, order: seq<nat>, e: int)
    requires IsOrder(order, |tasks|)
  {
    exists k :: FirstException(tasks, order, k, e)
  }

  lemma {:induction false} SequentialMeaning(tasks: seq<Task>, order: seq<nat>, k: nat)
    requires IsOrder(order, |tasks|) && k <= |order|
    requires forall j :: 0 <= j < k ==> Succeeded(tasks[order[j]])
    ensures match Sequential(tasks, order, k)
            case None => exists j :: k <= j < |order| && !tasks[order[j]].Done?
            case Some(Threw(e)) => Thrown(tasks, order, e)
            case Some(Values(vs)) =>
              && |vs| == |tasks|
              && forall i :: 0 <= i < |tasks| ==> tasks[i] == Done(Value(vs[i]))
    decreases |order| - k
  {
    if k == |order| {
      forall i | 0 <= i < |tasks|
        ensures Succeeded(tasks[i])
      {
        assert i in order;
      }
    } else {
      var task := tasks[order[k]];
      if Succeeded(task) {
        SequentialMeaning(tasks, order, k + 1);
      } else if task.Done? {
        assert FirstException(tasks, order, k, task.ending.e);
      } else {
        assert !tasks[order[k]].Done?;
      }
    }
  }

  lemma {:induction false} SucceededAreSkipped(tasks: seq<Task>, order: seq<nat>, k: nat)
    requires IsOrder(order, |tasks|) && k <= |order|
    requires forall j :: 0 <= j < k ==> Succeeded(tasks[order[j]])
    ensures Sequential(tasks, order, 0) == Sequential(tasks, order, k)
    decreases k
  {
    if k > 0 {
      SucceededAreSkipped(tasks, order, k - 1);
    }
  }

  /** Whatever the interleaving: no await and no answer before every task was started, and then
      always the answer of the sequential map over the tasks as they are: success exactly when
      all have succeeded, each value in its own place; otherwise the exception of the first
      task, in the order of awaiting, that threw, as soon as those before it have succeeded;
      and an answer as soon as every task has completed. */
  lemma GatherIsSequentialMap(n: nat, order: seq<nat>, events: seq<Event>)
    requires IsOrder(order, n)
    ensures var s := Run(Begun(n, order), events);
            && s.order == order && |s.tasks| == n
            && (s.awaited > 0 || s.answer.Some? ==> s.started == |s.tasks|)
            && (s.started == |s.tasks| ==> s.answer == Sequential(s.tasks, order, 0))
            && (forall vs :: s.answer == Some(Values(vs)) ==>
                  |vs| == |s.tasks| && forall i :: 0 <= i < |s.tasks| ==> s.tasks[i] == Done(Value(vs[i])))
            && ((forall i :: 0 <= i < |s.tasks| ==> Succeeded(s.tasks[i])) ==> s.answer.Some? && s.answer.value.Values?)
            && (forall e :: s.answer == Some(Threw(e)) ==>
                  Thrown(s.tasks, order, e))
            && ((forall i :: 0 <= i < |s.tasks| ==> s.tasks[i].Done?) ==> s.answer.Some?)
  {
    BegunIsFor(n, order);
    RunIsFor(Begun(n, order), events);
    hide Run, Begun;
    BegunKeeps(n, order);
    RunKeeps(Begun(n, order), events);
    var s := Run(Begun(n, order), events);
    if s.started == |s.tasks| {
      SequentialMeaning(s.tasks, s.order, s.awaited);
      SucceededAreSkipped(s.tasks, s.order, s.awaited);
    } else {
      assert s.tasks[s.started].Unstarted?;
    }
  }

  // ---- The class -----------------------------------------------------------

  class Gatherer {
    var tasks: seq<Task>
    const order: seq<nat>
    var started: nat
    var awaited: nat
    var answer: Option<Answer>

    constructor (n: nat, order: seq<nat>)
      requires IsOrder(order, n)
      ensures Now() == Begun(n, order) && Inv(Now())
    {
      tasks := seq(n, i => Unstarted);
      this.order, started, awaited, answer := order, 0, 0, None;
      new;
      BegunKeeps(n, order);
      AwaitOnward();
    }

    function Now(): State
      reads this
    {
      State(tasks, order, started, awaited, answer)
    }

    /** The awaiting loop, up to the next task that is suspended. */
    method AwaitOnward()
      requires IsOrder(order, |tasks|) && awaited <= |order|
      modifies this`awaited, this`answer
      ensures Now() == Onward(old(Now()))
    {
      if started < |tasks| || answer.Some? {
        return;
      }
      ghost var result := Onward(Now());
      while awaited < |order|
        invariant awaited <= |order| && answer.None?
        invariant Onward(Now()) == result
      {
        match tasks[order[awaited]] {
          case Done(Value(_)) => awaited := awaited + 1;
          case Done(Exception(e)) =>
            answer := Some(Threw(e));
            return;
          case other =>
            return;
        }
      }
      answer := Some(Values(ValuesOf(tasks)));
    }

    method TaskStarts(task: Task)
      requires Inv(Now()) && CanHappen(Now(), Starts(task))
      modifies this
      ensures Now() == Next(old(Now()), Starts(task)) && Inv(Now())
    {
      NextKeeps(Now(), Starts(task));
      tasks := tasks[started := task];
      started := started + 1;
      AwaitOnward();
    }

    method TaskCompletes(i: nat, ending: Ending)
      requires Inv(Now()) && CanHappen(Now(), Completes(i, ending))
      modifies this
      ensures Now() == Next(old(Now()), Completes(i, ending)) && Inv(Now())
    {
      NextKeeps(Now(), Completes(i, ending));
      tasks := tasks[i := Done(ending)];
      AwaitOnward();
    }
  }
}
