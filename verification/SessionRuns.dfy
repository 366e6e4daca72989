/** What holds in every state a session can reach, whatever arrives in whatever
    segments and whatever `process` answers. */
module SessionRuns {
  import opened Session

  datatype Event<P> =
    | Arrive(data: string, layout: seq<string>)   // octets from the network; the buffer may be laid out anew
    | Readable                                    // libevent calls read_cb
    | Completes(step: Step<P>)                    // the task in flight ends
    | CloseRequest
    | OutputQueued
    | OutputDrained                               // libevent calls write_cb

  /** A session, all the octets that ever arrived, and how many suspended tasks ended. */
  datatype World<P> = World(state: State<P>, received: string, ended: nat)

  /** The contract of `process`: it never claims more octets than it was offered. */
  ghost predicate Honest<P(!new)>(f: (P, string) -> Step<P>) {
    forall app, d :: f(app, d).reply.Used? ==> f(app, d).reply.octets <= |d|
  }

  function LastCall<P>(s: State<P>): Call
    requires s.calls != []
  {
    s.calls[|s.calls| - 1]
  }

  predicate CanHappen<P>(w: World<P>, e: Event<P>) {
    match e
    case Arrive(data, layout) =>
      w.state.open && NoEmptySegment(layout) && Flat(layout) == Flat(w.state.input) + data
    case Readable => w.state.open
    case Completes(step) =>
      && w.state.processor.InFlight? && w.state.calls != [] && !step.reply.Suspends?
      && (step.reply.Used? ==> step.reply.octets <= |LastCall(w.state).offered|)
    case CloseRequest => true
    case OutputQueued => w.state.open
    case OutputDrained => w.state.open
  }

  /** What an event does; one that cannot happen does nothing. */
  function Next<P>(f: (P, string) -> Step<P>, w: World<P>, e: Event<P>): World<P>
    requires NoEmptySegment(w.state.input)
  {
    if !CanHappen(w, e) then w else
    var s := w.state;
    match e
    case Arrive(data, layout) => w.(state := s.(input := layout), received := w.received + data)
    case Readable => w.(state := ReadCb(f, s))
    case Completes(step) => w.(state := Complete(s, step), ended := w.ended + 1)
    case CloseRequest => w.(state := Close(s))
    case OutputQueued => w.(state := s.(outputPending := true))
    case OutputDrained =>
      var s1 := s.(outputPending := false);
      w.(state := if s1.closing then Close(s1) else s1)
  }

  // ---- The invariant -------------------------------------------------------

  function Suspensions(calls: seq<Call>): nat {
    if calls == [] then 0
    else Suspensions(calls[..|calls| - 1]) + if calls[|calls| - 1].reply.Suspends? then 1 else 0
  }

  /** The call was offered octets of the stream, beginning where it says. */
  predicate OffersStream(c: Call, received: string) {
    c.at + |c.offered| <= |received| && c.offered == received[c.at..c.at + |c.offered|]
  }

  /** After `c` the stream goes on at `next`: behind the octets `c` used, when it
      answered with a count; at the same place when it threw. */
  predicate Continues(c: Call, next: nat) {
    match c.reply
    case Used(n) => next == c.at + n
    case Throws => next == c.at
    case Suspends => c.at <= next <= c.at + |c.offered|
  }

  /** Every call was offered the stream, from where the one before left it. */
  ghost predicate CallsInTurn(calls: seq<Call>, received: string) {
    && (forall i :: 0 <= i < |calls| ==> OffersStream(calls[i], received))
    && (forall i :: 0 <= i < |calls| - 1 ==> Continues(calls[i], calls[i + 1].at))
  }

  ghost predicate Sound<P>(s: State<P>, received: string) {
    && NoEmptySegment(s.input)
    && (if s.open then s.consumed + Flat(s.input) == received else s.consumed <= received && s.input == [])
    && CallsInTurn(s.calls, received)
    && (s.calls != [] ==> Continues(LastCall(s), |s.consumed|))
    && (s.processor.InFlight? ==>
          s.open && s.calls != [] && LastCall(s).reply.Suspends? && LastCall(s).at == |s.consumed|)
  }

  function Flying<P>(s: State<P>): nat {
    if s.processor.InFlight? then 1 else 0
  }

  /** Conservation: received octets are the consumed ones and the buffer. Every call
      was offered the unread stream from where the one before left it. Of the tasks
      that suspended all but at most one have ended, and while one is in flight
      nothing has been drained since its call. */
  ghost predicate Inv<P>(w: World<P>) {
    && Sound(w.state, w.received)
    && Suspensions(w.state.calls) == w.ended + Flying(w.state)
  }

  lemma MoreArrives(calls: seq<Call>, received: string, data: string)
    requires forall i :: 0 <= i < |calls| ==> OffersStream(calls[i], received)
    ensures forall i :: 0 <= i < |calls| ==> OffersStream(calls[i], received + data)
  {
    forall i | 0 <= i < |calls|
      ensures OffersStream(calls[i], received + data)
    {
      var c := calls[i];
      assert (received + data)[c.at..c.at + |c.offered|] == received[c.at..c.at + |c.offered|];
    }
  }

  lemma OneMoreCall(calls: seq<Call>, c: Call, received: string)
    requires CallsInTurn(calls, received) && OffersStream(c, received)
    requires calls != [] ==> Continues(calls[|calls| - 1], c.at)
    ensures CallsInTurn(calls + [c], received)
    ensures Suspensions(calls + [c]) == Suspensions(calls) + if c.reply.Suspends? then 1 else 0
  {
    hide OffersStream, Continues;
    var r := calls + [c];
    assert r[..|r| - 1] == calls;
    forall i | 0 <= i < |r| - 1
      ensures Continues(r[i], r[i + 1].at)
    {
      assert r[i] == calls[i];
    }
  }

  lemma {:induction false} TurnKeeps<P(!new)>(f: (P, string) -> Step<P>, s: State<P>, received: string, offered: string)
    requires Honest(f) && Sound(s, received) && s.open && !s.processor.InFlight?
    requires offered <= Flat(s.input)
    ensures Sound(Turn(f, s, offered), received)
    ensures Suspensions(Turn(f, s, offered).calls) == Suspensions(s.calls) + Flying(Turn(f, s, offered))
    ensures Turn(f, s, offered).open || LastReply(Turn(f, s, offered)).Throws?
    ensures Turn(f, s, offered).processor.InFlight? ==> LastReply(Turn(f, s, offered)).Suspends?
    ensures Turn(f, s, offered).app == f(s.app, offered).app
  {
    hide Drained, Flat, CallsInTurn, Suspensions;
    var c := Call(|s.consumed|, offered, f(s.app, offered).reply);
    assert Turn(f, s, offered).calls == s.calls + [c];
    OneMoreCall(s.calls, c, received);
  }

  /** What a loop started in `s` keeps, whatever it ends in. */
  ghost predicate Kept<P>(s: State<P>, r: State<P>, received: string) {
    Sound(r, received) && Suspensions(r.calls) == Suspensions(s.calls) + Flying(r)
  }

  lemma {:induction false} ContiguousKeeps<P(!new)>(f: (P, string) -> Step<P>, s: State<P>, received: string)
    requires Honest(f) && Sound(s, received) && s.open && !s.processor.InFlight?
    ensures Kept(s, Contiguous(f, s), received)
    decreases |Flat(s.input)|
  {
    hide Suspensions, Turn, Flat, Continues;
    if s.input != [] {
      HeadIsPrefix(s.input);
      TurnKeeps(f, s, received, s.input[0]);
      var s1 := Turn(f, s, s.input[0]);
      if LastReply(s1).Used? {
        if LastReply(s1).octets > 0 {
          ContiguousKeeps(f, s1, received);
        } else if |s1.input| > 1 {
          AllDataKeeps(f, s1, received);
        }
      }
    }
  }

  lemma HeadIsPrefix(segments: seq<string>)
    requires segments != []
    ensures segments[0] <= Flat(segments)
  {
  }

  lemma {:induction false} AllDataKeeps<P(!new)>(f: (P, string) -> Step<P>, s: State<P>, received: string)
    requires Honest(f) && Sound(s, received) && s.open && !s.processor.InFlight?
    ensures Kept(s, AllData(f, s), received)
    decreases |Flat(s.input)|
  {
    hide Suspensions, Turn, Flat, Continues;
    if s.input != [] {
      var s0 := s.(input := PulledUp(s.input));
      TurnKeeps(f, s0, received, Flat(s.input));
      var s1 := Turn(f, s0, Flat(s.input));
      if LastReply(s1).Used? && LastReply(s1).octets > 0 {
        FlatIsEmpty(s.input);
        AllDataKeeps(f, s1, received);
      }
    }
  }

  lemma CloseKeeps<P>(s: State<P>, received: string)
    requires Sound(s, received)
    ensures Sound(Close(s), received)
  {
    if s.open {
      assert s.consumed <= received;
    }
  }

  lemma CompleteKeeps<P>(s: State<P>, received: string, step: Step<P>)
    requires Sound(s, received) && s.processor.InFlight? && !step.reply.Suspends?
    requires step.reply.Used? ==> step.reply.octets <= |LastCall(s).offered|
    ensures Sound(Complete(s, step), received) && !Complete(s, step).processor.InFlight?
    ensures Complete(s, step).calls == s.calls
  {
    hide Drained, Flat;
    var s1 := s.(processor := Finished, app := step.app, closing := s.closing || step.closes);
    match step.reply
    case Used(n) =>
      var s2 := Consume(s1, n);
      assert Sound(s2, received);
      CloseKeeps(s2, received);
    case other =>
      CloseKeeps(s1, received);
  }

  /** Every event keeps the invariant. */
  lemma NextKeeps<P(!new)>(f: (P, string) -> Step<P>, w: World<P>, e: Event<P>)
    requires Honest(f) && Inv(w)
    ensures Inv(Next(f, w, e))
  {
    hide Suspensions, Flat, Complete, Contiguous, Continues;
    if CanHappen(w, e) {
      var s := w.state;
      match e
      case Arrive(data, layout) => MoreArrives(s.calls, w.received, data);
      case Readable =>
        if !s.processor.InFlight? {
          ContiguousKeeps(f, s.(processor := Idle), w.received);
        }
      case Completes(step) => CompleteKeeps(s, w.received, step);
      case CloseRequest => CloseKeeps(s, w.received);
      case OutputQueued =>
      case OutputDrained => CloseKeeps(s.(outputPending := false), w.received);
    }
  }

  ghost function Run<P(!new)>(f: (P, string) -> Step<P>, w: World<P>, events: seq<Event<P>>): World<P>
    requires Honest(f) && Inv(w)
    decreases |events|
  {
    if events == [] then w
    else
      NextKeeps(f, w, events[0]);
      Run(f, Next(f, w, events[0]), events[1..])
  }

  lemma {:induction false} RunKeeps<P(!new)>(f: (P, string) -> Step<P>, w: World<P>, events: seq<Event<P>>)
    requires Honest(f) && Inv(w)
    ensures Inv(Run(f, w, events))
    decreases |events|
  {
    hide Next, Suspensions, OffersStream, Continues;
    if events != [] {
      NextKeeps(f, w, events[0]);
      RunKeeps(f, Next(f, w, events[0]), events[1..]);
    }
  }

  /** A session just connected, before anything arrived. */
  function Start<P>(app: P): World<P> {
    World(Connected(app), "", 0)
  }

  /** Byte-stream conservation in every reachable state. */
  lemma EveryReachableState<P(!new)>(f: (P, string) -> Step<P>, app: P, events: seq<Event<P>>)
    requires Honest(f)
    ensures Inv(Start(app))
    ensures Inv(Run(f, Start(app), events))
  {
    RunKeeps(f, Start(app), events);
  }

  // ---- What is left when read_cb returns -----------------------------------

  /** Nothing is left, or the last call was offered all of it and used none. */
  predicate Exhausted<P>(s: State<P>) {
    || s.input == []
    || (s.calls != [] && LastCall(s) == Call(|s.consumed|, Flat(s.input), Used(0)))
  }

  predicate Gave<P>(s: State<P>) {
    s.calls != [] && !LastReply(s).Used?
  }

  lemma UselessTurn<P>(f: (P, string) -> Step<P>, s: State<P>, offered: string)
    requires NoEmptySegment(s.input) && f(s.app, offered).reply == Used(0)
    ensures var r := Turn(f, s, offered);
            r.input == s.input && LastCall(r) == Call(|r.consumed|, offered, Used(0))
  {
    ConsumeNothing(Offer(f, s, offered));
  }

  lemma {:induction false} AllDataLeavesNothing<P>(f: (P, string) -> Step<P>, s: State<P>)
    requires NoEmptySegment(s.input)
    ensures Exhausted(AllData(f, s)) || Gave(AllData(f, s))
    decreases |Flat(s.input)|
  {
    hide Turn, Flat;
    if s.input != [] {
      var s0 := s.(input := PulledUp(s.input));
      var s1 := Turn(f, s0, Flat(s.input));
      if LastReply(s1).Used? {
        if LastReply(s1).octets > 0 {
          FlatIsEmpty(s.input);
          AllDataLeavesNothing(f, s1);
        } else {
          UselessTurn(f, s0, Flat(s.input));
        }
      }
    }
  }

  lemma {:induction false} ContiguousLeavesNothing<P>(f: (P, string) -> Step<P>, s: State<P>)
    requires NoEmptySegment(s.input)
    ensures Exhausted(Contiguous(f, s)) || Gave(Contiguous(f, s))
    decreases |Flat(s.input)|
  {
    hide Turn;
    if s.input != [] {
      var s1 := Turn(f, s, s.input[0]);
      if LastReply(s1).Used? {
        if LastReply(s1).octets > 0 {
          ContiguousLeavesNothing(f, s1);
        } else {
          UselessTurn(f, s, s.input[0]);
          if |s1.input| > 1 {
            AllDataLeavesNothing(f, s1);
          } else {
            assert s1.input[1..] == [];
            assert Flat(s1.input) == s1.input[0];
          }
        }
      }
    }
  }

  /** `read_cb` returns with a task in flight, or because `process` threw, or when
      nothing more can be used: the buffer is empty, or `process` has just been
      offered the whole of it and used nothing. */
  lemma ReadCbLeavesNothing<P>(f: (P, string) -> Step<P>, s: State<P>)
    requires NoEmptySegment(s.input)
    ensures var r := ReadCb(f, s);
            r.processor.InFlight? || Gave(r) || Exhausted(r)
  {
    ContiguousLeavesNothing(f, s.(processor := Idle));
  }
}
