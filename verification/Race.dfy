/** `race_pack` and `race_container` of include/covent/gather.h on one loop: the tasks that
    are left after starting get a dummy task as their parent, and the racer sleeps under
    the dummy until something completes. */
module Race {
  import opened Tasks
  import opened Text

  /** A task of the race. `onDummy`: its parent handle is that of the dummy. */
  datatype Runner = Runner(task: Task, onDummy: bool)

  /** What the race returns or throws. */
  datatype Result = Won(v: int) | Failed(e: int) | TimedOut

  datatype Phase = Starting(next: nat) | Parked | Over(result: Result)

  /** `timer`: whether the timeout can still fire. `wakes` counts how often the racer was
      resumed from under the dummy. */
  datatype State = State(runners: seq<Runner>, phase: Phase, timer: bool, wakes: nat)

  /** The accepting predicate and whether there is a timeout; `pack` tells the two variants
      apart. */
  datatype Rules = Rules(accept: int -> bool, timed: bool, pack: bool)

  // ---- Looking for a winner ------------------------------------------------

  /** `return_first_done`, and the loop of the container: the first task that is done and
      accepted wins; one that is done with an exception before it throws it. */
  function FirstDone(accept: int -> bool, runners: seq<Runner>): Option<Result> {
    if runners == [] then None
    else match runners[0].task
         case Done(Value(v)) => if accept(v) then Some(Won(v)) else FirstDone(accept, runners[1..])
         case Done(Exception(e)) => Some(Failed(e))
         case other => FirstDone(accept, runners[1..])
  }

  /** Passed over: not done, or done with a value that was not accepted. */
  predicate PassedOver(accept: int -> bool, r: Runner) {
    r.task.Done? ==> r.task.ending.Value? && !accept(r.task.ending.v)
  }

  /** Runner `i` decides the race. */
  predicate Decides(accept: int -> bool, runners: seq<Runner>, i: nat, result: Result) {
    && i < |runners| && runners[i].task.Done?
    && (match runners[i].task.ending
        case Value(v) => accept(v) && result == Won(v)
        case Exception(e) => result == Failed(e))
    && forall j :: 0 <= j < i ==> PassedOver(accept, runners[j])
  }

  lemma {:induction false} FirstDoneMeaning(accept: int -> bool, runners: seq<Runner>)
    ensures var first := FirstDone(accept, runners);
            if first.None? then forall j :: 0 <= j < |runners| ==> PassedOver(accept, runners[j])
            else exists i: nat :: Decides(accept, runners, i, first.value)
  {
    if runners != [] {
      var rest := runners[1..];
      FirstDoneMeaning(accept, rest);
      if PassedOver(accept, runners[0]) {
        assert forall j :: 1 <= j < |runners| ==> runners[j] == rest[j - 1];
        if FirstDone(accept, rest).Some? {
          var result := FirstDone(accept, rest).value;
          var i: nat :| Decides(accept, rest, i, result);
          assert FirstDone(accept, runners) == Some(result);
          assert Decides(accept, runners, i + 1, result);
        }
      } else {
        assert Decides(accept, runners, 0, FirstDone(accept, runners).value);
      }
    }
  }

  // ---- The racer -----------------------------------------------------------

  function WithParent(runners: seq<Runner>, onDummy: bool): (r: seq<Runner>)
    ensures |r| == |runners|
    ensures forall i :: 0 <= i < |runners| ==> r[i] == runners[i].(onDummy := onDummy)
  {
    seq(|runners|, i requires 0 <= i < |runners| => runners[i].(onDummy := onDummy))
  }

  /** Every task has been started: a pack looks for a winner before it sleeps. */
  function Park(rules: Rules, s: State): State {
    if rules.pack && FirstDone(rules.accept, s.runners).Some? then
      s.(phase := Over(FirstDone(rules.accept, s.runners).value))
    else s.(runners := WithParent(s.runners, true), phase := Parked, timer := rules.timed)
  }

  /** The next task in turn, if it was not started before, is started and is then `task`.
      A container takes the result of one that completes at once, without asking. */
  function StartNext(rules: Rules, s: State, task: Task): State
    requires s.phase.Starting? && s.phase.next < |s.runners|
  {
    var i := s.phase.next;
    if !s.runners[i].task.Unstarted? then s.(phase := Starting(i + 1))
    else
      var s1 := s.(runners := s.runners[i := s.runners[i].(task := task)], phase := Starting(i + 1));
      match task
      case Done(ending) =>
        if rules.pack then s1
        else s1.(phase := Over(match ending case Value(v) => Won(v) case Exception(e) => Failed(e)))
      case other => s1
  }

  /** The dummy has run and the racer goes on: the tasks are detached and looked through.
      The timer is destroyed with the racer's frame. */
  function Wake(rules: Rules, s: State): State {
    var result := match FirstDone(rules.accept, s.runners)
                  case Some(result) => result
                  case None => TimedOut;
    State(WithParent(s.runners, false), Over(result), false, s.wakes + 1)
  }

  /** A task completes: its parent, if it has one, is the dummy. */
  function Complete(rules: Rules, s: State, i: nat, ending: Ending): State
    requires i < |s.runners|
  {
    var s1 := s.(runners := s.runners[i := s.runners[i].(task := Done(ending))]);
    if s.runners[i].onDummy then Wake(rules, s1) else s1
  }

  datatype Event = Starts(task: Task) | AllStarted | Completes(i: nat, ending: Ending) | TimerFires

  predicate CanHappen(s: State, e: Event) {
    match e
    case Starts(task) => s.phase.Starting? && s.phase.next < |s.runners| && !task.Unstarted?
    case AllStarted => s.phase == Starting(|s.runners|)
    case Completes(i, _) => i < |s.runners| && s.runners[i].task.Suspended?
    case TimerFires => s.timer
  }

  function Next(rules: Rules, s: State, e: Event): State {
    if !CanHappen(s, e) then s
    else match e
         case Starts(task) => StartNext(rules, s, task)
         case AllStarted => Park(rules, s)
         case Completes(i, ending) => Complete(rules, s, i, ending)
         case TimerFires => Wake(rules, s)
  }

  function Run(rules: Rules, s: State, events: seq<Event>): State
    decreases |events|
  {
    if events == [] then s else Run(rules, Next(rules, s, events[0]), events[1..])
  }

  /** A race over tasks that nobody else awaits; some may have been started before. */
  function Begun(tasks: seq<Task>): State {
    State(seq(|tasks|, i requires 0 <= i < |tasks| => Runner(tasks[i], false)), Starting(0), false, 0)
  }

  // ---- The invariant -------------------------------------------------------

  predicate Attached(s: State, onDummy: bool) {
    forall i :: 0 <= i < |s.runners| ==> s.runners[i].onDummy == onDummy
  }

  /** Only while the racer sleeps do tasks point at the dummy and can the timer fire; it is
      woken at most once, and never by anything after that. */
  predicate Inv(rules: Rules, s: State) {
    && Attached(s, s.phase.Parked?)
    && s.timer == (s.phase.Parked? && rules.timed)
    && (if s.phase.Over? then s.wakes <= 1 else s.wakes == 0)
    && (s.phase.Starting? ==>
          s.phase.next <= |s.runners| && forall i :: 0 <= i < s.phase.next ==> !s.runners[i].task.Unstarted?)
    && (s.phase.Parked? ==> forall i :: 0 <= i < |s.runners| ==> !s.runners[i].task.Unstarted?)
    && (rules.pack && s.phase.Parked? ==> FirstDone(rules.accept, s.runners).None?)
  }

  lemma {:induction false} ParentsDoNotDecide(accept: int -> bool, a: seq<Runner>, b: seq<Runner>)
    requires |a| == |b| && forall i :: 0 <= i < |a| ==> a[i].task == b[i].task
    ensures FirstDone(accept, a) == FirstDone(accept, b)
  {
    if a != [] {
      ParentsDoNotDecide(accept, a[1..], b[1..]);
    }
  }

  lemma NextKeeps(rules: Rules, s: State, e: Event)
    requires Inv(rules, s)
    ensures Inv(rules, Next(rules, s, e))
  {
    if CanHappen(s, e) && e.AllStarted? {
      ParentsDoNotDecide(rules.accept, s.runners, WithParent(s.runners, true));
    }
  }

  lemma {:induction false} RunKeeps(rules: Rules, s: State, events: seq<Event>)
    requires Inv(rules, s)
    ensures Inv(rules, Run(rules, s, events))
    decreases |events|
  {
    if events != [] {
      NextKeeps(rules, s, events[0]);
      RunKeeps(rules, Next(rules, s, events[0]), events[1..]);
    }
  }

  /** In every run of either race: the racer wakes at most once, at most while it sleeps;
      while it sleeps every task points at the dummy and a timeout is armed if there is one,
      so whatever still completes wakes it; when the race is over no task points at the dummy
      and no timer is left, so a later finisher resumes nobody; and a sleeping pack has missed
      no winner. Whether anything is left that can wake it is another matter: `StuckExactly`. */
  lemma EveryRace(rules: Rules, tasks: seq<Task>, events: seq<Event>)
    ensures var s := Run(rules, Begun(tasks), events);
            && s.wakes <= 1 && (s.wakes == 1 ==> s.phase.Over?)
            && (s.phase.Parked? ==> s.timer == rules.timed && forall i :: 0 <= i < |s.runners| ==> s.runners[i].onDummy)
            && (s.phase.Over? ==> !s.timer && forall i :: 0 <= i < |s.runners| ==> !s.runners[i].onDummy)
            && (rules.pack && s.phase.Parked? ==>
                  forall j :: 0 <= j < |s.runners| ==> PassedOver(rules.accept, s.runners[j]))
  {
    hide Run;
    assert Inv(rules, Begun(tasks));
    RunKeeps(rules, Begun(tasks), events);
    var s := Run(rules, Begun(tasks), events);
    FirstDoneMeaning(rules.accept, s.runners);
  }

  /** The racer is woken by a completion or by the timer and by nothing else, and the race
      is then decided by the first task in argument order that is done and accepted (or
      done with an exception); with none it has timed out. */
  lemma WakingDecides(rules: Rules, s: State, e: Event)
    requires Inv(rules, s) && Next(rules, s, e).wakes != s.wakes
    ensures s.phase.Parked? && (e.Completes? || (e.TimerFires? && rules.timed))
    ensures var r := Next(rules, s, e);
            && r.wakes == 1 && r.phase.Over?
            && if r.phase.result == TimedOut then
                 forall j :: 0 <= j < |r.runners| ==> PassedOver(rules.accept, r.runners[j])
               else exists i: nat :: Decides(rules.accept, r.runners, i, r.phase.result)
  {
    var r := Next(rules, s, e);
    var runners := if e.Completes? then s.runners[e.i := s.runners[e.i].(task := Done(e.ending))] else s.runners;
    ParentsDoNotDecide(rules.accept, runners, r.runners);
    FirstDoneMeaning(rules.accept, r.runners);
  }

  /** Every task that is not done can complete and wakes a sleeping race of either kind, and so
      does the timer; the race is then over and its tasks are detached. Nothing else happens. */
  lemma EverythingWakes(rules: Rules, s: State, e: Event)
    requires Inv(rules, s) && s.phase.Parked?
    ensures CanHappen(s, e) <==>
            || (e.TimerFires? && rules.timed)
            || (e.Completes? && e.i < |s.runners| && !s.runners[e.i].task.Done?)
    ensures !CanHappen(s, e) ==> Next(rules, s, e) == s
    ensures CanHappen(s, e) ==>
            var r := Next(rules, s, e);
            && r.wakes == 1 && r.phase.Over? && !r.timer && |r.runners| == |s.runners|
            && forall j :: 0 <= j < |s.runners| ==>
                 r.runners[j] == Runner(if e.Completes? && e.i == j then Done(e.ending) else s.runners[j].task, false)
  {
  }

  /** While the race is being started a completion is only noted, and its task keeps its
      parent; a task started before is passed over, and any other is started. */
  lemma StartingEffect(rules: Rules, s: State, e: Event)
    requires Inv(rules, s) && s.phase.Starting? && CanHappen(s, e) && !e.AllStarted?
    ensures var r := Next(rules, s, e);
            var n := s.phase.next;
            && r.wakes == 0 && !r.timer && |r.runners| == |s.runners|
            && match e
               case Completes(i, ending) =>
                 r.phase == s.phase && r.runners == s.runners[i := Runner(Done(ending), false)]
               case Starts(task) =>
                 if !s.runners[n].task.Unstarted? then r.runners == s.runners && r.phase == Starting(n + 1)
                 else
                   && r.runners == s.runners[n := Runner(task, false)]
                   && r.phase == if rules.pack || !task.Done? then Starting(n + 1) else Over(Taken(task.ending))
               case _ => false
  {
  }

  /** With all tasks started a pack that has a winner is over with it; any other race sleeps. */
  lemma ParkingEffect(rules: Rules, s: State)
    requires Inv(rules, s) && CanHappen(s, AllStarted)
    ensures var r := Next(rules, s, AllStarted);
            if rules.pack && exists i: nat, result :: Decides(rules.accept, s.runners, i, result) then
              && r == s.(phase := r.phase) && r.phase.Over?
              && exists i: nat :: Decides(rules.accept, s.runners, i, r.phase.result)
            else
              && r.phase == Parked && r.timer == rules.timed && r.wakes == 0 && |r.runners| == |s.runners|
              && forall j :: 0 <= j < |s.runners| ==> r.runners[j] == Runner(s.runners[j].task, true)
  {
    FirstDoneMeaning(rules.accept, s.runners);
    if i: nat, result :| Decides(rules.accept, s.runners, i, result) {
      assert !PassedOver(rules.accept, s.runners[i]);
    }
  }

  /** In a pack that slept, the task whose completion wakes the racer is the only one that
      can decide, so the race is over early, without a winner, exactly when that one is
      not accepted: the timeout is reported although the time is not up. */
  lemma RejectedFinisherEndsTheRace(rules: Rules, s: State, i: nat, v: int)
    requires rules.pack && Inv(rules, s) && s.phase.Parked? && CanHappen(s, Completes(i, Value(v)))
    ensures var r := Next(rules, s, Completes(i, Value(v)));
            r.phase == Over(if rules.accept(v) then Won(v) else TimedOut)
  {
    var runners := s.runners[i := s.runners[i].(task := Done(Value(v)))];
    FirstDoneMeaning(rules.accept, s.runners);
    FirstDoneMeaning(rules.accept, runners);
    var first := FirstDone(rules.accept, runners);
    if first.Some? {
      var k: nat :| Decides(rules.accept, runners, k, first.value);
      assert k != i ==> PassedOver(rules.accept, s.runners[k]);
    } else {
      assert PassedOver(rules.accept, runners[i]);
    }
  }

  // ---- What a race returns --------------------------------------------------

  lemma {:induction false} RunAppends(rules: Rules, s: State, events: seq<Event>, e: Event)
    ensures Run(rules, s, events + [e]) == Next(rules, Run(rules, s, events), e)
    decreases |events|
  {
    hide Next;
    if events == [] {
      assert [e][1..] == [];
      assert Run(rules, Next(rules, s, e), []) == Next(rules, s, e);
    } else {
      assert (events + [e])[1..] == events[1..] + [e];
      RunAppends(rules, Next(rules, s, events[0]), events[1..], e);
    }
  }

  lemma {:induction false} RunSplits(rules: Rules, s: State, first: seq<Event>, second: seq<Event>)
    ensures Run(rules, s, first + second) == Run(rules, Run(rules, s, first), second)
    decreases |first|
  {
    hide Next;
    if first == [] {
      assert first + second == second;
    } else {
      assert (first + second)[1..] == first[1..] + second;
      RunSplits(rules, Next(rules, s, first[0]), first[1..], second);
    }
  }

  /** A race that is over stays as it ended. */
  lemma {:induction false} OverStays(rules: Rules, s: State, events: seq<Event>)
    requires Inv(rules, s) && s.phase.Over?
    ensures Run(rules, s, events).phase == s.phase
    decreases |events|
  {
    if events != [] {
      NextKeeps(rules, s, events[0]);
      OverStays(rules, Next(rules, s, events[0]), events[1..]);
    }
  }

  function ResultOf(first: Option<Result>): Result {
    if first.None? then TimedOut else first.value
  }

  function Taken(ending: Ending): Result {
    match ending
    case Value(v) => Won(v)
    case Exception(e) => Failed(e)
  }

  /** Event `e` ends the race: a completion or the timer while the racer sleeps, and then the
      first task that is done and accepted, or threw, decides; the look of a pack before it
      sleeps; or a task of a container that completes as soon as it is started. */
  predicate Ends(rules: Rules, before: State, e: Event, after: State) {
    && !before.phase.Over? && after.phase.Over?
    && match before.phase
       case Parked =>
         (e.Completes? || (e.TimerFires? && rules.timed))
         && after.phase.result == ResultOf(FirstDone(rules.accept, after.runners))
       case Starting(next) =>
         if rules.pack then e.AllStarted? && Some(after.phase.result) == FirstDone(rules.accept, after.runners)
         else AtOnce(before, e) && after.phase.result == Taken(e.task.ending)
       case Over(_) => false
  }

  /** A task that was not started before is started and is done at once. */
  predicate AtOnce(s: State, e: Event) {
    && CanHappen(s, e) && e.Starts? && e.task.Done?
    && s.runners[s.phase.next].task.Unstarted?
  }

  lemma StepEnds(rules: Rules, s: State, e: Event)
    requires Inv(rules, s) && !s.phase.Over? && Next(rules, s, e).phase.Over?
    ensures Ends(rules, s, e, Next(rules, s, e))
  {
    if e.Completes? || e.TimerFires? {
      var runners := if e.Completes? then s.runners[e.i := s.runners[e.i].(task := Done(e.ending))] else s.runners;
      ParentsDoNotDecide(rules.accept, runners, Next(rules, s, e).runners);
    }
  }

  predicate EndsAt(rules: Rules, tasks: seq<Task>, events: seq<Event>, k: nat, result: Result) {
    && k < |events|
    && Ends(rules, Run(rules, Begun(tasks), events[..k]), events[k], Run(rules, Begun(tasks), events[..k + 1]))
    && Run(rules, Begun(tasks), events[..k + 1]).phase == Over(result)
  }

  /** Over every run: what a race returns is what decided at the one event that ended it. */
  lemma {:induction false} RaceResult(rules: Rules, tasks: seq<Task>, events: seq<Event>, result: Result)
    requires Run(rules, Begun(tasks), events).phase == Over(result)
    ensures exists k: nat :: EndsAt(rules, tasks, events, k, result)
    decreases |events|
  {
    hide Next, Inv, Ends;
    var s0 := Begun(tasks);
    BegunHolds(rules, tasks);
    if events != [] {
      var n := |events| - 1;
      var before, e := events[..n], events[n];
      assert events == before + [e] && events[..n + 1] == events;
      RunAppends(rules, s0, before, e);
      RunKeeps(rules, s0, before);
      var s := Run(rules, s0, before);
      if s.phase.Over? {
        OverStays(rules, s, [e]);
        RunSplits(rules, s0, before, [e]);
        RaceResult(rules, tasks, before, result);
        var k: nat :| EndsAt(rules, tasks, before, k, result);
        assert events[..k] == before[..k] && events[..k + 1] == before[..k + 1];
        assert EndsAt(rules, tasks, events, k, result);
      } else {
        StepEnds(rules, s, e);
        assert EndsAt(rules, tasks, events, n, result);
      }
    }
  }

  predicate Ended(s: State, ending: Ending) {
    exists i: nat | i < |s.runners| :: s.runners[i].task == Done(ending)
  }

  /** A value returned is one a task ended with, and accepted unless a container took it from a
      task that completed at once; an exception is one a task threw; a timeout is reported
      only after a wake. */
  predicate ResultSound(rules: Rules, s: State) {
    s.phase.Over? ==>
      match s.phase.result
      case Won(v) => Ended(s, Value(v)) && (rules.pack || s.wakes == 1 ==> rules.accept(v))
      case Failed(e) => Ended(s, Exception(e))
      case TimedOut => s.wakes == 1
  }

  lemma DoneStays(rules: Rules, s: State, e: Event, ending: Ending)
    requires Ended(s, ending)
    ensures Ended(Next(rules, s, e), ending)
  {
    var i: nat :| i < |s.runners| && s.runners[i].task == Done(ending);
    assert Next(rules, s, e).runners[i].task == Done(ending);
  }

  lemma NextIsSound(rules: Rules, s: State, e: Event)
    requires Inv(rules, s) && ResultSound(rules, s)
    ensures ResultSound(rules, Next(rules, s, e))
  {
    var r := Next(rules, s, e);
    if s.phase.Over? {
      OverStays(rules, s, [e]);
      RunOne(rules, s, e);
      match s.phase.result {
        case Won(v) => DoneStays(rules, s, e, Value(v));
        case Failed(x) => DoneStays(rules, s, e, Exception(x));
        case TimedOut =>
      }
    } else if r.phase.Over? {
      StepEnds(rules, s, e);
      FirstDoneMeaning(rules.accept, r.runners);
      if s.phase.Starting? && !rules.pack {
        assert r.runners[s.phase.next].task == e.task;
      } else if FirstDone(rules.accept, r.runners).Some? {
        var i: nat :| Decides(rules.accept, r.runners, i, FirstDone(rules.accept, r.runners).value);
      }
    }
  }

  lemma RunOne(rules: Rules, s: State, e: Event)
    ensures Run(rules, s, [e]) == Next(rules, s, e)
  {
    hide Next;
    assert [e][1..] == [];
  }

  lemma {:induction false} RunIsSound(rules: Rules, s: State, events: seq<Event>)
    requires Inv(rules, s) && ResultSound(rules, s)
    ensures ResultSound(rules, Run(rules, s, events))
    decreases |events|
  {
    hide Next, Inv, ResultSound;
    if events != [] {
      NextKeeps(rules, s, events[0]);
      NextIsSound(rules, s, events[0]);
      RunIsSound(rules, Next(rules, s, events[0]), events[1..]);
    }
  }

  lemma EveryResultIsSound(rules: Rules, tasks: seq<Task>, events: seq<Event>)
    ensures ResultSound(rules, Run(rules, Begun(tasks), events))
  {
    hide Run;
    BegunHolds(rules, tasks);
    RunIsSound(rules, Begun(tasks), events);
  }

  /** Event `k` starts a task that is done at once with `v`. */
  predicate AtOnceAt(rules: Rules, tasks: seq<Task>, events: seq<Event>, k: nat, v: int) {
    && k < |events| && AtOnce(Run(rules, Begun(tasks), events[..k]), events[k])
    && events[k].task.ending == Value(v)
  }

  /** A container returns a value its predicate rejects if and only if a task not started
      before completes with it as soon as it is started. */
  lemma RejectedValueExactly(rules: Rules, tasks: seq<Task>, events: seq<Event>, v: int)
    requires !rules.pack && !rules.accept(v)
    ensures Run(rules, Begun(tasks), events).phase == Over(Won(v)) <==>
            exists k: nat :: AtOnceAt(rules, tasks, events, k, v)
  {
    hide Next, Inv, Run;
    var s0 := Begun(tasks);
    if Run(rules, s0, events).phase == Over(Won(v)) {
      RaceResult(rules, tasks, events, Won(v));
      var k: nat :| EndsAt(rules, tasks, events, k, Won(v));
      NotWonAsleep(rules, Run(rules, s0, events[..k]), events[k], Run(rules, s0, events[..k + 1]), v);
      assert AtOnceAt(rules, tasks, events, k, v);
    }
    if k: nat :| AtOnceAt(rules, tasks, events, k, v) {
      BegunHolds(rules, tasks);
      RunKeeps(rules, s0, events[..k + 1]);
      assert events[..k + 1] == events[..k] + [events[k]];
      RunAppends(rules, s0, events[..k], events[k]);
      AtOnceWins(rules, Run(rules, s0, events[..k]), events[k]);
      OverStays(rules, Run(rules, s0, events[..k + 1]), events[k + 1..]);
      RunSplits(rules, s0, events[..k + 1], events[k + 1..]);
      assert events[..k + 1] + events[k + 1..] == events;
    }
  }

  lemma NotWonAsleep(rules: Rules, s: State, e: Event, r: State, v: int)
    requires !rules.pack && Ends(rules, s, e, r) && r.phase == Over(Won(v)) && !rules.accept(v)
    ensures AtOnce(s, e) && e.task.ending == Value(v)
  {
    FirstDoneMeaning(rules.accept, r.runners);
  }

  lemma AtOnceWins(rules: Rules, s: State, e: Event)
    requires !rules.pack && AtOnce(s, e)
    ensures Next(rules, s, e).phase == Over(Taken(e.task.ending))
  {
  }

  lemma RejectedValueHappens()
    ensures var rules := Rules(v => v > 0, true, false);
            Run(rules, Begun([Unstarted]), [Starts(Done(Value(0)))]).phase == Over(Won(0))
  {
    var rules := Rules(v => v > 0, true, false);
    RunOne(rules, Begun([Unstarted]), Starts(Done(Value(0))));
  }

  /** A sleeping race is changed by nothing that can still happen if and only if it has no
      timer and every task is done. */
  lemma StuckExactly(rules: Rules, s: State)
    requires Inv(rules, s) && s.phase.Parked?
    ensures (forall e :: Next(rules, s, e) == s) <==>
            !rules.timed && forall i :: 0 <= i < |s.runners| ==> s.runners[i].task.Done?
  {
    if rules.timed {
      assert Next(rules, s, TimerFires).phase.Over?;
    } else if i: nat :| i < |s.runners| && !s.runners[i].task.Done? {
      assert s.runners[i].task.Suspended?;
      assert Next(rules, s, Completes(i, Value(0))).phase.Over?;
    } else {
      assert forall e :: !CanHappen(s, e);
    }
  }

  /** A pack without a timeout whose only task completes at once with a rejected value sleeps
      for ever. */
  lemma SleepsForEver(more: seq<Event>)
    ensures var rules := Rules(v => v > 0, false, true);
            var s := Run(rules, Begun([Unstarted]), [Starts(Done(Value(0))), AllStarted]);
            s.phase.Parked? && Run(rules, s, more) == s
  {
    var rules := Rules(v => v > 0, false, true);
    var s0 := Begun([Unstarted]);
    var s1 := Next(rules, s0, Starts(Done(Value(0))));
    assert [Starts(Done(Value(0))), AllStarted][1..] == [AllStarted];
    RunOne(rules, s1, AllStarted);
    assert s1.runners == [Runner(Done(Value(0)), false)];
    assert s1.runners[1..] == [] && FirstDone(rules.accept, s1.runners).None?;
    var s := Next(rules, s1, AllStarted);
    BegunHolds(rules, [Unstarted]);
    NextKeeps(rules, s0, Starts(Done(Value(0))));
    NextKeeps(rules, s1, AllStarted);
    StuckExactly(rules, s);
    NothingMore(rules, s, more);
  }

  lemma {:induction false} NothingMore(rules: Rules, s: State, events: seq<Event>)
    requires forall e :: Next(rules, s, e) == s
    ensures Run(rules, s, events) == s
    decreases |events|
  {
    if events != [] {
      NothingMore(rules, s, events[1..]);
    }
  }

  // ---- A winner a container sleeps on --------------------------------------

  /** Done, and not passed over. */
  predicate Wins(accept: int -> bool, t: Task) {
    t.Done? && (t.ending.Value? ==> accept(t.ending.v))
  }

  /** Event `k` happens while the race is being started, and completes a task that would win. */
  predicate CompletesWinner(rules: Rules, tasks: seq<Task>, events: seq<Event>, k: nat) {
    && k < |events| && events[k].Completes? && Wins(rules.accept, Done(events[k].ending))
    && var before := Run(rules, Begun(tasks), events[..k]);
       before.phase.Starting? && CanHappen(before, events[k])
  }

  predicate HasWinner(rules: Rules, s: State) {
    exists i: nat :: i < |s.runners| && Wins(rules.accept, s.runners[i].task)
  }

  /** In a container that is not over: only a completion makes a winner. */
  lemma OnlyCompletionsWin(rules: Rules, s: State, e: Event)
    requires !rules.pack && Inv(rules, s) && !Next(rules, s, e).phase.Over?
    ensures !s.phase.Over?
    ensures HasWinner(rules, Next(rules, s, e)) <==>
            HasWinner(rules, s)
            || (s.phase.Starting? && CanHappen(s, e) && e.Completes? && Wins(rules.accept, Done(e.ending)))
  {
    var r := Next(rules, s, e);
    if CanHappen(s, e) && e.Completes? {
      assert forall i :: 0 <= i < |s.runners| && i != e.i ==> r.runners[i].task == s.runners[i].task;
      assert r.runners[e.i].task == Done(e.ending) && s.runners[e.i].task.Suspended?;
      if HasWinner(rules, s) {
        var i: nat :| i < |s.runners| && Wins(rules.accept, s.runners[i].task);
        assert Wins(rules.accept, r.runners[i].task);
      }
    } else {
      SameWinners(rules, s, e);
    }
  }

  lemma SameWinners(rules: Rules, s: State, e: Event)
    requires !rules.pack && Inv(rules, s) && !Next(rules, s, e).phase.Over? && !(CanHappen(s, e) && e.Completes?)
    ensures !s.phase.Over?
    ensures HasWinner(rules, Next(rules, s, e)) <==> HasWinner(rules, s)
  {
    var r := Next(rules, s, e);
    assert |r.runners| == |s.runners|;
    forall i: nat | i < |s.runners|
      ensures Wins(rules.accept, r.runners[i].task) <==> Wins(rules.accept, s.runners[i].task)
    {
    }
  }

  lemma {:induction false} WinnersOfRun(rules: Rules, tasks: seq<Task>, events: seq<Event>)
    requires !rules.pack && !Run(rules, Begun(tasks), events).phase.Over?
    ensures HasWinner(rules, Run(rules, Begun(tasks), events)) <==>
            || (exists i: nat :: i < |tasks| && Wins(rules.accept, tasks[i]))
            || (exists k: nat :: CompletesWinner(rules, tasks, events, k))
    decreases |events|
  {
    hide Next, Inv;
    var s0 := Begun(tasks);
    if events == [] {
      BegunWinners(rules, tasks);
    } else {
      var n := |events| - 1;
      var before, e := events[..n], events[n];
      assert events == before + [e];
      RunAppends(rules, s0, before, e);
      BegunHolds(rules, tasks);
      RunKeeps(rules, s0, before);
      OnlyCompletionsWin(rules, Run(rules, s0, before), e);
      WinnersOfRun(rules, tasks, before);
      forall k: nat | k < n
        ensures CompletesWinner(rules, tasks, events, k) <==> CompletesWinner(rules, tasks, before, k)
      {
        assert events[..k] == before[..k];
      }
      if k: nat :| CompletesWinner(rules, tasks, events, k) && k < n {
        assert CompletesWinner(rules, tasks, before, k);
      }
      if k: nat :| CompletesWinner(rules, tasks, before, k) {
        assert CompletesWinner(rules, tasks, events, k);
      }
      assert CompletesWinner(rules, tasks, events, n) <==>
             && Run(rules, s0, before).phase.Starting? && CanHappen(Run(rules, s0, before), e)
             && e.Completes? && Wins(rules.accept, Done(e.ending));
    }
  }

  lemma BegunHolds(rules: Rules, tasks: seq<Task>)
    ensures Inv(rules, Begun(tasks))
  {
  }

  lemma BegunWinners(rules: Rules, tasks: seq<Task>)
    ensures HasWinner(rules, Begun(tasks)) <==> exists i: nat :: i < |tasks| && Wins(rules.accept, tasks[i])
  {
    var s := Begun(tasks);
    assert forall i: nat :: i < |tasks| ==> s.runners[i].task == tasks[i];
  }

  /** A container does not look before it sleeps: it sleeps on a winner if and only if a task
      handed in was done already and would win, or one that would win completed while the
      race was being started. */
  lemma ContainerSleepsOnWinner(rules: Rules, tasks: seq<Task>, events: seq<Event>)
    requires !rules.pack && Run(rules, Begun(tasks), events).phase.Parked?
    ensures FirstDone(rules.accept, Run(rules, Begun(tasks), events).runners).Some? <==>
            || (exists i: nat :: i < |tasks| && Wins(rules.accept, tasks[i]))
            || (exists k: nat :: CompletesWinner(rules, tasks, events, k))
  {
    hide Run;
    var s := Run(rules, Begun(tasks), events);
    WinnersOfRun(rules, tasks, events);
    FirstDoneMeaning(rules.accept, s.runners);
    if FirstDone(rules.accept, s.runners).Some? {
      var i: nat :| Decides(rules.accept, s.runners, i, FirstDone(rules.accept, s.runners).value);
      assert Wins(rules.accept, s.runners[i].task);
    }
    forall i: nat | i < |s.runners| && Wins(rules.accept, s.runners[i].task)
      ensures !PassedOver(rules.accept, s.runners[i])
    {
    }
  }

  /** A container sleeps on a task that was done when it was handed in. */
  lemma SleepingOnWinnerHappens()
    ensures var rules := Rules(v => true, true, false);
            var s := Run(rules, Begun([Done(Value(1))]), [Starts(Suspended), AllStarted]);
            s.phase == Parked && FirstDone(rules.accept, s.runners) == Some(Won(1))
  {
    var rules := Rules(v => true, true, false);
    var s0 := Begun([Done(Value(1))]);
    var s1 := Next(rules, s0, Starts(Suspended));
    assert [Starts(Suspended), AllStarted][1..] == [AllStarted];
    assert [AllStarted][1..] == [];
    assert Run(rules, s1, [AllStarted]) == Run(rules, Next(rules, s1, AllStarted), []);
  }

  /** Task 0 ends with a value that is not accepted while task 1 is still on its way. */
  lemma EarlyTimeoutHappens()
    ensures var rules := Rules(v => v > 0, true, true);
            var s := Run(rules, Begun([Suspended, Suspended]), [Starts(Suspended), Starts(Suspended), AllStarted]);
            && s.phase == Parked
            && Next(rules, s, Completes(0, Value(0))).phase == Over(TimedOut)
            && Next(rules, s, Completes(0, Value(0))).runners[1].task == Suspended
  {
    var rules := Rules(v => v > 0, true, true);
    var s0 := Begun([Suspended, Suspended]);
    var s1 := Next(rules, s0, Starts(Suspended));
    var s2 := Next(rules, s1, Starts(Suspended));
    var s3 := Next(rules, s2, AllStarted);
    assert [Starts(Suspended), Starts(Suspended), AllStarted][1..] == [Starts(Suspended), AllStarted];
    assert [Starts(Suspended), AllStarted][1..] == [AllStarted];
    assert [AllStarted][1..] == [];
    assert Run(rules, s2, [AllStarted]) == Run(rules, s3, []);
    assert s2.runners == [Runner(Suspended, false), Runner(Suspended, false)];
    FirstDoneMeaning(rules.accept, s2.runners);
    assert s3.phase == Parked;
    BegunHolds(rules, [Suspended, Suspended]);
    NextKeeps(rules, s0, Starts(Suspended));
    NextKeeps(rules, s1, Starts(Suspended));
    NextKeeps(rules, s2, AllStarted);
    RejectedFinisherEndsTheRace(rules, s3, 0, 0);
  }

  // ---- The class -----------------------------------------------------------

  class Racer {
    const rules: Rules
    var runners: seq<Runner>
    var phase: Phase
    var timer: bool
    ghost var wakes: nat

    constructor (rules: Rules, tasks: seq<Task>)
      ensures this.rules == rules && Now() == Begun(tasks)
    {
      this.rules := rules;
      runners := seq(|tasks|, i requires 0 <= i < |tasks| => Runner(tasks[i], false));
      phase, timer, wakes := Starting(0), false, 0;
      new;
      assert runners == Begun(tasks).runners;
    }

    ghost function Now(): State
      reads this
    {
      State(runners, phase, timer, wakes)
    }

    /** The parent handle of every task is overwritten. */
    method SetParents(onDummy: bool)
      modifies this`runners
      ensures runners == WithParent(old(runners), onDummy)
    {
      for i := 0 to |runners|
        invariant |runners| == |old(runners)|
        invariant forall j :: 0 <= j < |runners| ==>
                    runners[j] == if j < i then old(runners)[j].(onDummy := onDummy) else old(runners)[j]
      {
        runners := runners[i := runners[i].(onDummy := onDummy)];
      }
    }

    /** The racer goes to sleep under the dummy unless a pack has a winner already. */
    method GoToSleep()
      requires Inv(rules, Now()) && CanHappen(Now(), AllStarted)
      modifies this
      ensures Now() == Next(rules, old(Now()), AllStarted) && Inv(rules, Now())
    {
      NextKeeps(rules, Now(), AllStarted);
      if rules.pack {
        var winner := FirstDone(rules.accept, runners);
        if winner.Some? {
          phase := Over(winner.value);
          return;
        }
      }
      SetParents(true);
      timer := rules.timed;
      phase := Parked;
    }

    method WakeUp()
      modifies this
      ensures Now() == Wake(rules, old(Now()))
    {
      ParentsDoNotDecide(rules.accept, runners, WithParent(runners, false));
      wakes := wakes + 1;
      SetParents(false);
      timer := false;
      match FirstDone(rules.accept, runners) {
        case Some(result) => phase := Over(result);
        case None => phase := Over(TimedOut);
      }
    }

    method TaskCompletes(i: nat, ending: Ending)
      requires Inv(rules, Now()) && CanHappen(Now(), Completes(i, ending))
      modifies this
      ensures Now() == Next(rules, old(Now()), Completes(i, ending)) && Inv(rules, Now())
    {
      NextKeeps(rules, Now(), Completes(i, ending));
      runners := runners[i := runners[i].(task := Done(ending))];
      if runners[i].onDummy {
        WakeUp();
      }
    }
  }
}
