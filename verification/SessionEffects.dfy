/** What each event does to a session: which octets `read_cb` offers first, what is drained,
    and when the session is closed, at once or later. */
module SessionEffects {
  import opened Session
  import opened SessionRuns

  // ---- One call ------------------------------------------------------------

  /** One call of `process` from either loop: the octets it used leave the buffer, a task that
      suspends is in flight, and an exception closes the session unless output is pending. */
  lemma TurnEffect<P>(f: (P, string) -> Step<P>, s: State<P>, offered: string)
    requires NoEmptySegment(s.input) && s.open && !s.processor.InFlight?
    ensures var step, r := f(s.app, offered), Turn(f, s, offered);
            && r.app == step.app && r.outputPending == s.outputPending
            && r.calls == s.calls + [Call(|s.consumed|, offered, step.reply)]
            && r.closing == (s.closing || step.closes || step.reply.Throws?)
            && r.open == (s.outputPending || !step.reply.Throws?)
            && r.processor == (if step.reply.Suspends? then InFlight else s.processor)
            && match step.reply
               case Used(n) =>
                 n <= |Flat(s.input)| ==>
                   r.consumed == s.consumed + Flat(s.input)[..n] && Flat(r.input) == Flat(s.input)[n..]
               case Suspends => r.consumed == s.consumed && r.input == s.input
               case Throws => r.consumed == s.consumed && r.input == if s.outputPending then s.input else []
  {
    hide Flat, Drained;
  }

  /** `read_cb` does nothing while a task is in flight; otherwise it offers the contiguous
      head first. A suspension or an exception is the last call. When octets were used it
      goes on as if called anew; when none were, the whole follows if there is more than the
      head. */
  lemma ReadCbEffect<P>(f: (P, string) -> Step<P>, s: State<P>)
    requires NoEmptySegment(s.input)
    ensures var r := ReadCb(f, s);
            var n := |s.calls|;
            if s.processor.InFlight? then r == s
            else if s.input == [] then r == s.(processor := Idle)
            else
              var s1 := Turn(f, s.(processor := Idle), s.input[0]);
              match f(s.app, s.input[0]).reply
              case Used(k) =>
                if k > 0 then r == ReadCb(f, s1)
                else if |s.input| == 1 then r == s1
                else |r.calls| > n + 1 && r.calls[..n + 1] == s1.calls && r.calls[n + 1].offered == Flat(s.input)
              case _ => r == s1
  {
    hide Flat, Drained;
    if !s.processor.InFlight? && s.input != [] {
      var s0 := s.(processor := Idle);
      var s1 := Turn(f, s0, s.input[0]);
      if f(s.app, s.input[0]).reply == Used(0) {
        UselessTurn(f, s0, s.input[0]);
        if |s.input| > 1 {
          AllDataOffersAll(f, s1);
        }
      }
    }
  }

  lemma {:induction false} AllDataOffersAll<P>(f: (P, string) -> Step<P>, s: State<P>)
    requires NoEmptySegment(s.input)
    ensures var r := AllData(f, s);
            && |r.calls| >= |s.calls| && r.calls[..|s.calls|] == s.calls
            && (s.input != [] ==> |r.calls| > |s.calls| && r.calls[|s.calls|].offered == Flat(s.input))
    decreases |Flat(s.input)|
  {
    hide Flat, Turn;
    if s.input != [] {
      FlatIsEmpty(s.input);
      var s1 := Turn(f, s.(input := PulledUp(s.input)), Flat(s.input));
      if LastReply(s1).Used? && LastReply(s1).octets > 0 {
        AllDataOffersAll(f, s1);
        assert AllData(f, s).calls[..|s1.calls|] == s1.calls;
      }
    }
  }

  /** The end of a suspended task: the octets it used leave the buffer then, and what is behind
      them stays unless the session is closed. */
  lemma CompleteEffect<P>(s: State<P>, step: Step<P>)
    requires NoEmptySegment(s.input) && s.open && s.processor.InFlight? && !step.reply.Suspends?
    ensures var r := Complete(s, step);
            && r.processor.Finished? && r.app == step.app && r.calls == s.calls && r.outputPending == s.outputPending
            && r.closing == (s.closing || step.closes || step.reply.Throws?)
            && match step.reply
               case Used(n) =>
                 n <= |Flat(s.input)| ==>
                   && r.consumed == s.consumed + Flat(s.input)[..n]
                   && (r.open ==> Flat(r.input) == Flat(s.input)[n..])
               case _ => r.consumed == s.consumed && (r.open ==> r.input == s.input)
  {
    hide Flat, Drained;
  }

  // ---- Closing -------------------------------------------------------------

  /** Whether `read_cb` ended with an exception of `process`. */
  predicate Threw<P>(s: State<P>, r: State<P>) {
    |r.calls| > |s.calls| && LastReply(r).Throws?
  }

  /** A close is put off while a task is in flight or output is pending, and retried by the
      end of the task and by the drained output; an exception of `process` closes, too. */
  lemma ClosedBy<P(!new)>(f: (P, string) -> Step<P>, w: World<P>, e: Event<P>)
    requires Inv(w) && w.state.open && CanHappen(w, e)
    ensures var s, r := w.state, Next(f, w, e).state;
            match e
            case CloseRequest => r.closing && r.open == (s.processor.InFlight? || s.outputPending)
            case Completes(step) =>
              r.open == (s.outputPending || (step.reply.Used? && !s.closing && !step.closes))
            case OutputDrained => r.open == (s.processor.InFlight? || !s.closing)
            case Readable => r.open == (s.outputPending || !Threw(s, r))
            case _ => r.open && r.closing == s.closing
    ensures !Next(f, w, e).state.open ==> Next(f, w, e).state.input == []
  {
    hide Flat, Drained, CallsInTurn, Suspensions, Continues;
    match e
    case Readable =>
      if !w.state.processor.InFlight? {
        ContiguousCloses(f, w.state.(processor := Idle));
      }
    case _ =>
  }

  lemma {:induction false} ContiguousCloses<P>(f: (P, string) -> Step<P>, s: State<P>)
    requires NoEmptySegment(s.input) && s.open && !s.processor.InFlight?
    ensures var r := Contiguous(f, s);
            && |r.calls| >= |s.calls| && r.outputPending == s.outputPending
            && (|r.calls| == |s.calls| ==> r.calls == s.calls)
            && r.open == (s.outputPending || !Threw(s, r)) && (!r.open ==> r.input == [])
    decreases |Flat(s.input)|
  {
    hide Flat, Turn;
    if s.input != [] {
      TurnEffect(f, s, s.input[0]);
      var s1 := Turn(f, s, s.input[0]);
      if LastReply(s1).Used? {
        if LastReply(s1).octets > 0 {
          ContiguousCloses(f, s1);
        } else if |s1.input| > 1 {
          AllDataCloses(f, s1);
        }
      }
    }
  }

  lemma {:induction false} AllDataCloses<P>(f: (P, string) -> Step<P>, s: State<P>)
    requires NoEmptySegment(s.input) && s.open && !s.processor.InFlight?
    ensures var r := AllData(f, s);
            && |r.calls| >= |s.calls| && r.outputPending == s.outputPending
            && (|r.calls| == |s.calls| ==> r.calls == s.calls)
            && r.open == (s.outputPending || !Threw(s, r)) && (!r.open ==> r.input == [])
    decreases |Flat(s.input)|
  {
    hide Flat, Turn;
    if s.input != [] {
      FlatIsEmpty(s.input);
      var s0 := s.(input := PulledUp(s.input));
      TurnEffect(f, s0, Flat(s.input));
      var s1 := Turn(f, s0, Flat(s.input));
      if LastReply(s1).Used? && LastReply(s1).octets > 0 {
        AllDataCloses(f, s1);
      }
    }
  }

  // ---- Closes that are forgotten -------------------------------------------

  /** A close that was asked for and not carried out will be retried. */
  predicate Retried<P>(s: State<P>) {
    s.closing && s.open ==> s.processor.InFlight? || s.outputPending
  }

  /** A close is forgotten exactly when `process` asks for it in a call that it finishes at
      once with a count, while no output is pending. */
  lemma ForgottenExactly<P>(f: (P, string) -> Step<P>, s: State<P>, offered: string)
    requires NoEmptySegment(s.input) && s.open && !s.processor.InFlight? && Retried(s)
    ensures !Retried(Turn(f, s, offered)) <==>
            f(s.app, offered).closes && f(s.app, offered).reply.Used? && !s.outputPending
  {
    hide Turn;
    TurnEffect(f, s, offered);
  }

  /** `process` asks for a close only in calls it suspends, or that end with an exception. */
  ghost predicate ClosesLate<P(!new)>(f: (P, string) -> Step<P>) {
    forall app, d :: f(app, d).closes ==> !f(app, d).reply.Used?
  }

  lemma {:induction false} ContiguousRetries<P(!new)>(f: (P, string) -> Step<P>, s: State<P>)
    requires ClosesLate(f) && NoEmptySegment(s.input) && s.open && !s.processor.InFlight? && Retried(s)
    ensures Retried(Contiguous(f, s))
    decreases |Flat(s.input)|
  {
    hide Flat, Turn;
    if s.input != [] {
      TurnEffect(f, s, s.input[0]);
      var s1 := Turn(f, s, s.input[0]);
      if LastReply(s1).Used? {
        if LastReply(s1).octets > 0 {
          ContiguousRetries(f, s1);
        } else if |s1.input| > 1 {
          AllDataRetries(f, s1);
        }
      }
    }
  }

  lemma {:induction false} AllDataRetries<P(!new)>(f: (P, string) -> Step<P>, s: State<P>)
    requires ClosesLate(f) && NoEmptySegment(s.input) && s.open && !s.processor.InFlight? && Retried(s)
    ensures Retried(AllData(f, s))
    decreases |Flat(s.input)|
  {
    hide Flat, Turn;
    if s.input != [] {
      FlatIsEmpty(s.input);
      var s0 := s.(input := PulledUp(s.input));
      TurnEffect(f, s0, Flat(s.input));
      var s1 := Turn(f, s0, Flat(s.input));
      if LastReply(s1).Used? && LastReply(s1).octets > 0 {
        AllDataRetries(f, s1);
      }
    }
  }

  lemma NextRetries<P(!new)>(f: (P, string) -> Step<P>, w: World<P>, e: Event<P>)
    requires ClosesLate(f) && Inv(w) && Retried(w.state)
    ensures Retried(Next(f, w, e).state)
  {
    hide Flat, Drained, CallsInTurn, Suspensions, Continues;
    if CanHappen(w, e) && e.Readable? && !w.state.processor.InFlight? {
      ContiguousRetries(f, w.state.(processor := Idle));
    }
  }

  /** With such a `process` no close is ever forgotten, in any run: whenever one has been asked
      for and the session is still open, a task is in flight or output is pending. */
  lemma {:induction false} ClosesAreRetried<P(!new)>(f: (P, string) -> Step<P>, w: World<P>, events: seq<Event<P>>)
    requires Honest(f) && ClosesLate(f) && Inv(w) && Retried(w.state)
    ensures Retried(Run(f, w, events).state)
    decreases |events|
  {
    hide Next, CallsInTurn, Suspensions, Retried;
    if events != [] {
      NextKeeps(f, w, events[0]);
      NextRetries(f, w, events[0]);
      ClosesAreRetried(f, Next(f, w, events[0]), events[1..]);
    }
  }

  /** A `process` that takes everything and closes: the session stays open with nothing in
      flight and nothing pending. */
  lemma CloseForgottenHappens()
    ensures var f := (app: int, d: string) => Step(app, Used(|d|), true);
            && Honest(f)
            && var s := Next(f, Next(f, Start(0), Arrive("x", ["x"])), Readable).state;
               s.open && s.closing && s.processor.Idle? && !s.outputPending && s.input == []
  {
    var f := (app: int, d: string) => Step(app, Used(|d|), true);
    assert ["x"][1..] == [];
    var w := Next(f, Start(0), Arrive("x", ["x"]));
    assert w.state.input == ["x"];
    TurnEffect(f, w.state, "x");
    var s1 := Turn(f, w.state, "x");
    FlatIsEmpty(s1.input);
    assert Flat(s1.input) == "";
    ReadCbEffect(f, w.state);
    ReadCbEffect(f, s1);
    assert w.state.(processor := Idle) == w.state;
  }
}
