/** The runtime with its fields assigned as the source assigns them: one method for each
    function of include/covent/coroutine.h and include/covent/future.h that transfers
    control. Each is proved to be the step of the machine. */
module CoroutineRuntime {
  import opened Text
  import opened Coroutines
  import opened CoroutineInvariants
  import opened CoroutineSteps
  import opened CoroutineRuns

  class Runtime {
    var frames: map<Id, Frame>
    var wrappers: map<Id, Wrapper>
    var futures: seq<Future>
    var stacks: seq<seq<Id>>
    var queues: seq<seq<Id>>
    var next: Id
    var results: map<Id, Outcome>

    constructor (loops: nat)
      ensures Now() == Initially(loops) && Inv(Now(), None)
    {
      frames, wrappers, futures, results := map[], map[], [], map[];
      stacks, queues, next := seq(loops, i => []), seq(loops, i => []), 0;
      new;
      InitiallyHolds(loops);
    }

    function Now(): State
      reads this
    {
      State(frames, results, wrappers, futures, stacks, queues, next)
    }

    /** `wrapped_promise::resume_handle`, and the resumption of the handle it returns. */
    method ResumeHandle(l: nat, f: Id)
      requires l < |stacks| && Resumable(Now(), f) && frames[f].loop < |queues|
      modifies this
      ensures Now() == Enter(old(Now()), l, f)
    {
      if frames[f].loop == l {
        if frames[f].phase.Awaiting? {
          var w := frames[f].phase.wrapper;
          wrappers := wrappers[w := wrappers[w].(taken := wrappers[w].taken + 1)];
        }
        frames := frames[f := frames[f].(phase := Running)];
        stacks := stacks[l := stacks[l] + [f]];
      } else {
        var loop := frames[f].loop;
        queues := queues[loop := queues[loop] + [f]];
      }
    }

    /** The innermost coroutine of thread `l` suspends or ends. */
    method Suspend(l: nat, phase: Phase) returns (f: Id)
      requires OnThread(Now(), l)
      modifies this`frames, this`stacks
      ensures f == Top(old(Now()), l) && Now() == Leave(old(Now()), l, phase)
    {
      f := stacks[l][|stacks[l]| - 1];
      frames := frames[f := frames[f].(phase := phase)];
      stacks := stacks[l := stacks[l][..|stacks[l]| - 1]];
    }

    /** `task::start` */
    method Start(l: nat, f: Id)
      requires Inv(Now(), None) && Enabled(Now(), Action.Start(l, f))
      modifies this
      ensures Now() == Step(old(Now()), Action.Start(l, f))
    {
      hide Inv, WaitsFor;
      StepKeeps(Now(), Action.Start(l, f));
      ResumeHandle(l, f);
    }

    /** `co_await` of a task: the wrapper and its `task_awaiter`. */
    method CoAwait(l: nat, child: Id)
      requires Inv(Now(), None) && Enabled(Now(), AwaitTask(l, child))
      modifies this
      ensures Now() == Step(old(Now()), AwaitTask(l, child))
    {
      hide Inv, WaitsFor;
      ghost var before := Now();
      StepKeeps(before, AwaitTask(l, child));
      var w, f := next, stacks[l][|stacks[l]| - 1];
      next := next + 1;
      if frames[child].phase.Finished? {
        wrappers := wrappers[w := Wrapper(f, OnTask(child), Some(results[child]), 1, false)];
        return;
      }
      if frames[child].parent.Some? {
        wrappers := wrappers[w := Wrapper(f, OnTask(child), Some(DoubleAwait), 1, false)];
        return;
      }
      NotItself(before, child, f);
      wrappers := wrappers[w := Wrapper(f, OnTask(child), None, 0, true)];
      f := Suspend(l, Awaiting(w));
      frames := frames[child := frames[child].(parent := Some(w))];
      assert Now() == Blocked(before, l, child);
      if frames[child].phase.Initial? {
        ResumeHandle(l, child);
      }
    }

    /** `final_suspend` after `co_return` or an exception: transfer to the parent. */
    method FinalSuspend(l: nat, o: Outcome)
      requires Inv(Now(), None) && Enabled(Now(), Return(l, o))
      modifies this
      ensures Now() == Step(old(Now()), Return(l, o))
    {
      hide Inv, WaitsFor;
      ghost var before := Now();
      StepKeeps(before, Return(l, o));
      var f := Suspend(l, Finished);
      results := results[f := o];
      match frames[f].parent
      case None =>
      case Some(w) =>
        wrappers := wrappers[w := wrappers[w].(outcome := Some(o))];
        assert Now() == Ended(before, l, o);
        ResumeHandle(l, wrappers[w].client);
    }

    /** `future::await_ready` and `await_suspend`. */
    method FutureAwait(l: nat, u: nat)
      requires Inv(Now(), None) && Enabled(Now(), AwaitFuture(l, u))
      modifies this
      ensures Now() == Step(old(Now()), AwaitFuture(l, u))
    {
      hide Inv, LiveWaiter;
      StepKeeps(Now(), AwaitFuture(l, u));
      var w, f := next, stacks[l][|stacks[l]| - 1];
      next := next + 1;
      var fut := futures[u];
      if fut.value.Some? {
        wrappers := wrappers[w := Wrapper(f, OnFuture(u, |fut.log| - 1), fut.value, 1, false)];
      } else {
        wrappers := wrappers[w := Wrapper(f, OnFuture(u, |fut.log|), None, 0, true)];
        f := Suspend(l, Awaiting(w));
        futures := futures[u := fut.(waiter := Some(w))];
      }
    }

    /** `future::resolve` or `exception`, and `gogogo`. */
    method FutureResolve(l: nat, u: nat, o: Outcome)
      requires Inv(Now(), None) && Enabled(Now(), Resolve(l, u, o))
      modifies this
      ensures Now() == Step(old(Now()), Resolve(l, u, o))
    {
      hide Inv, WaitsFor;
      ghost var before := Now();
      StepKeeps(before, Resolve(l, u, o));
      var waiter := futures[u].waiter;
      var alive := LiveWaiter(Now(), u);
      futures := futures[u := futures[u].(value := Some(o), log := futures[u].log + [o])];
      if alive {
        var w := waiter.value;
        wrappers := wrappers[w := wrappers[w].(outcome := Some(o))];
        assert Now() == Settled(before, u, o);
        ResumeHandle(l, wrappers[w].client);
      }
    }

    /** `future::reset` */
    method FutureReset(u: nat)
      requires Inv(Now(), None) && u < |futures|
      modifies this`futures
      ensures Now() == Step(old(Now()), Reset(u))
    {
      hide Inv;
      StepKeeps(Now(), Reset(u));
      if futures[u].value.Some? {
        futures := futures[u := Future(None, None, futures[u].log)];
      }
    }

    /** `handle.destroy()` in the destructor of `task`, with what the frame owns. */
    method DestroyTasks(fs: set<Id>)
      requires Inv(Now(), None) && Enabled(Now(), Destroy(fs))
      modifies this`frames
      ensures Now() == Step(old(Now()), Destroy(fs))
    {
      hide Inv, WaitsFor;
      StepKeeps(Now(), Destroy(fs));
      frames := frames - fs;
    }

    /** The deferred function of `resume_handle` or `sleep`, run by the loop. */
    method RunDeferred(l: nat, i: nat)
      requires Inv(Now(), None) && Enabled(Now(), Dispatch(l, i))
      modifies this
      ensures Now() == Step(old(Now()), Dispatch(l, i))
    {
      hide Inv, WaitsFor;
      StepKeeps(Now(), Dispatch(l, i));
      var f := queues[l][i];
      queues := queues[l := queues[l][..i] + queues[l][i + 1..]];
      if f in frames {
        ResumeHandle(l, f);
      }
    }

    method Sleep(l: nat)
      requires Inv(Now(), None) && Enabled(Now(), Action.Sleep(l))
      modifies this
      ensures Now() == Step(old(Now()), Action.Sleep(l))
    {
      hide Inv, WaitsFor;
      StepKeeps(Now(), Action.Sleep(l));
      var f := Suspend(l, Sleeping);
      var loop := frames[f].loop;
      queues := queues[loop := queues[loop] + [f]];
    }
  }
}
