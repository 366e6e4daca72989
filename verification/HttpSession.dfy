/** `Client::HTTPSession::process` of src/http/client.cpp between the session and the
    parser, and the end-to-end theorem: neither the packets nor the segments of the
    buffer ever change the response that is delivered. */
module HttpSession {
  import opened Text
  import opened HttpMessage
  import opened HttpParser
  import opened Session
  import opened SessionRuns

  /** The derived session: the message being read (none once it was moved into the
      response), whether a coroutine awaits `ready`, whether `ready` is resolved, and
      the messages handed to the awaiting coroutine. */
  datatype App = App(message: Option<Msg>, waiting: bool, resolved: bool, delivered: seq<Msg>)

  /** `ready.resolve(true)` runs the awaiting coroutine, which takes the message. */
  function Resolve(a: App): App
    requires a.message.Some?
  {
    if a.waiting then App(None, false, true, a.delivered + [a.message.value])
    else a.(resolved := true)
  }

  function HttpProcess(a: App, data: string): Step<App> {
    match a.message
    case None => Step(a, Used(0), false)
    case Some(m) =>
      match Parse(m, data)
      case None => Step(a, Throws, false)
      case Some(p) =>
        var a1 := a.(message := Some(p.msg));
        Step(if p.msg.complete then Resolve(a1) else a1, Used(p.used), false)
  }

  lemma HttpProcessIsHonest()
    ensures Honest(HttpProcess)
  {
    hide Parse;
  }

  class HTTPSession {
    var message: Message?
    var waiting: bool
    var resolved: bool
    ghost var delivered: seq<Msg>

    constructor (waiting: bool)
      ensures message != null && fresh(message)
      ensures Now() == App(Some(FRESH), waiting, false, [])
    {
      message := new Message();
      this.waiting, resolved, delivered := waiting, false, [];
    }

    ghost function Now(): App
      reads this, message
    {
      App(if message == null then None else Some(message.State()), waiting, resolved, delivered)
    }

    /** For octets the parser handles. */
    method Process(data: string) returns (used: nat)
      requires |data| < NPOS
      requires message != null ==> WellFormed(message.State(), data) && Bounded(message.State())
      modifies this, message
      ensures HttpProcess(old(Now()), data) == Step(Now(), Used(used), false)
    {
      hide Parse;
      if message == null {
        return 0;
      }
      used := message.Process(data);
      if message.complete {
        resolved := true;
        if waiting {
          delivered := delivered + [message.State()];
          message, waiting := null, false;
        }
      }
    }
  }

  // ---- Complete messages ---------------------------------------------------

  /** A complete message has a body with nothing left, or a last chunk. */
  predicate Shaped(m: Msg) {
    m.complete ==>
      && m.statusCode != -1 && m.headerRead
      && (m.bodyRemaining == Some(0) || (m.bodyRemaining.None? && m.chunked))
  }

  lemma UnitKeepsShape(m: Msg, d: string)
    requires Shaped(m)
    ensures UnitAt(m, d).Take? || UnitAt(m, d).Wait? ==> Shaped(UnitAt(m, d).msg)
  {
    hide Trailers, HeaderLine, ParseStatusLine, ParseChunkSize, Contains, StoI;
  }

  lemma {:induction false} ParseKeepsShape(m: Msg, d: string)
    requires Shaped(m) && WellFormed(m, d)
    ensures Shaped(Parse(m, d).value.msg)
    decreases |d|
  {
    hide UnitAt;
    UnitKeepsShape(m, d);
    var u := UnitAt(m, d);
    if u.Take? {
      ParseKeepsShape(u.msg, d[u.used..]);
    }
  }

  /** Once complete, a message takes nothing more. */
  lemma CompleteTakesNothing(m: Msg, d: string)
    requires Shaped(m) && m.complete
    ensures Parse(m, d) == Some(Parsed(m, 0))
  {
    if m.bodyRemaining == Some(0) {
      ParseBody(m, d);
      assert m.body + "" == m.body;
    } else {
      CompleteMeaning(m, d);
    }
  }

  /** With no octets at all a message that has settled stays as it is. */
  predicate Settled(m: Msg) {
    Parse(m, "") == Some(Parsed(m, 0))
  }

  lemma WaitSettles(m: Msg, d: string)
    requires UnitAt(m, d).Wait?
    ensures var m1 := UnitAt(m, d).msg; UnitAt(m1, "") == Wait(m1)
  {
    hide Trailers, ParseStatusLine, ParseChunkSize, Contains, StoI;
  }

  lemma {:induction false} ParseEndsSettled(m: Msg, d: string)
    requires WellFormed(m, d)
    ensures Settled(Parse(m, d).value.msg)
    decreases |d|
  {
    hide UnitAt;
    var u := UnitAt(m, d);
    if u.Take? {
      ParseEndsSettled(u.msg, d[u.used..]);
    } else {
      WaitSettles(m, d);
    }
  }

  // ---- One response over the whole run -------------------------------------

  /** The whole stream, what one single call makes of it, and whether the client awaits
      `ready` before anything arrives. */
  datatype Goal = Goal(stream: string, whole: Parsed, waiting: bool)

  /** Where the response stands while only a part of the stream has arrived: still being
      read, on course; or delivered, exactly once. */
  ghost predicate Course(a: App, consumed: nat, g: Goal) {
    match a.message
    case Some(m) =>
      && a.delivered == []
      && OnCourse(Parsed(m, consumed), g.stream, g.whole)
      && Shaped(m) && Settled(m)
      && a.resolved == m.complete && a.waiting == g.waiting && !(m.complete && g.waiting)
    case None =>
      && g.waiting && !a.waiting && a.resolved
      && a.delivered == [g.whole.msg] && consumed == g.whole.used && g.whole.msg.complete
  }

  /** What the last call left unused, offered again, would change nothing. */
  ghost predicate LastCallSettled(s: State<App>) {
    s.calls != [] ==>
      && LastReply(s).Used? && LastReply(s).octets <= |LastCall(s).offered|
      && (s.app.message.Some? ==>
            var m := s.app.message.value;
            Parse(m, LastCall(s).offered[LastReply(s).octets..]) == Some(Parsed(m, 0)))
  }

  ghost predicate Track(s: State<App>, received: string, g: Goal) {
    && Sound(s, received) && received <= g.stream
    && s.open && !s.closing && !s.processor.InFlight?
    && Course(s.app, |s.consumed|, g)
    && LastCallSettled(s)
  }

  lemma CompleteIsWhole(m: Msg, consumed: nat, g: Goal)
    requires Shaped(m) && m.complete && OnCourse(Parsed(m, consumed), g.stream, g.whole)
    ensures m == g.whole.msg && consumed == g.whole.used
  {
    CompleteTakesNothing(m, g.stream[consumed..]);
  }

  /** One call of `process` on octets that come next in the stream. */
  lemma {:induction false} ProcessStaysOnCourse(a: App, consumed: nat, g: Goal, end: nat)
    requires Course(a, consumed, g) && consumed <= end <= |g.stream|
    ensures var offered := g.stream[consumed..end];
            var step := HttpProcess(a, offered);
            && step.reply.Used? && step.reply.octets <= |offered| && !step.closes
            && Course(step.app, consumed + step.reply.octets, g)
            && (step.app.message.Some? ==>
                  Parse(step.app.message.value, offered[step.reply.octets..])
                    == Some(Parsed(step.app.message.value, 0)))
  {
    hide Parse, OnCourse, Shaped;
    if a.message.Some? {
      var m := a.message.value;
      var offered := g.stream[consumed..end];
      OfferStaysOnCourse(Parsed(m, consumed), g.stream, g.whole, end);
      var p := Parse(m, offered).value;
      ParseKeepsShape(m, offered);
      ParseEndsSettled(m, offered);
      ParseSettles(m, offered);
      if m.complete {
        CompleteTakesNothing(m, offered);
      }
      if p.msg.complete {
        CompleteIsWhole(p.msg, consumed + p.used, g);
      }
    }
  }

  lemma TurnTracks(s: State<App>, received: string, g: Goal, offered: string)
    requires Track(s, received, g) && offered <= Flat(s.input)
    ensures Track(Turn(HttpProcess, s, offered), received, g)
  {
    hide Drained, Flat, HttpProcess, Course;
    HttpProcessIsHonest();
    TurnKeeps(HttpProcess, s, received, offered);
    var at := |s.consumed|;
    assert offered == g.stream[at..at + |offered|];
    ProcessStaysOnCourse(s.app, at, g, at + |offered|);
  }

  lemma {:induction false} ContiguousTracks(s: State<App>, received: string, g: Goal)
    requires Track(s, received, g)
    ensures Track(Contiguous(HttpProcess, s), received, g)
    decreases |Flat(s.input)|
  {
    hide Turn, HttpProcess, Course, Flat;
    if s.input != [] {
      HeadIsPrefix(s.input);
      TurnTracks(s, received, g, s.input[0]);
      var s1 := Turn(HttpProcess, s, s.input[0]);
      if LastReply(s1).octets > 0 {
        ContiguousTracks(s1, received, g);
      } else if |s1.input| > 1 {
        AllDataTracks(s1, received, g);
      }
    }
  }

  lemma {:induction false} AllDataTracks(s: State<App>, received: string, g: Goal)
    requires Track(s, received, g)
    ensures Track(AllData(HttpProcess, s), received, g)
    decreases |Flat(s.input)|
  {
    hide Turn, HttpProcess, Course, Flat;
    if s.input != [] {
      var s0 := s.(input := PulledUp(s.input));
      TurnTracks(s0, received, g, Flat(s.input));
      var s1 := Turn(HttpProcess, s0, Flat(s.input));
      if LastReply(s1).octets > 0 {
        FlatIsEmpty(s.input);
        AllDataTracks(s1, received, g);
      }
    }
  }

  // ---- End to end ----------------------------------------------------------

  /** Packets, read events and output; nobody closes the session. */
  predicate Traffic(e: Event<App>) {
    e.Arrive? || e.Readable? || e.OutputQueued? || e.OutputDrained?
  }

  ghost predicate AllTraffic(events: seq<Event<App>>) {
    forall i :: 0 <= i < |events| ==> Traffic(events[i])
  }

  lemma {:induction false} RunGrows(w: World<App>, events: seq<Event<App>>)
    requires Honest(HttpProcess) && Inv(w)
    ensures w.received <= Run(HttpProcess, w, events).received
    decreases |events|
  {
    hide Suspensions, OffersStream, Continues, ReadCb, Complete, HttpProcess;
    if events != [] {
      NextKeeps(HttpProcess, w, events[0]);
      RunGrows(Next(HttpProcess, w, events[0]), events[1..]);
    }
  }

  lemma {:induction false} NextTracks(w: World<App>, e: Event<App>, g: Goal)
    requires Honest(HttpProcess) && Inv(w) && Traffic(e)
    requires Track(w.state, w.received, g) && Next(HttpProcess, w, e).received <= g.stream
    ensures Track(Next(HttpProcess, w, e).state, Next(HttpProcess, w, e).received, g)
  {
    hide HttpProcess, Course, Contiguous, Suspensions;
    if CanHappen(w, e) {
      NextKeeps(HttpProcess, w, e);
      if e.Readable? {
        ContiguousTracks(w.state.(processor := Idle), w.received, g);
      }
    }
  }

  lemma {:induction false} RunTracks(w: World<App>, events: seq<Event<App>>, g: Goal)
    requires Honest(HttpProcess) && Inv(w) && AllTraffic(events)
    requires Track(w.state, w.received, g) && Run(HttpProcess, w, events).received <= g.stream
    ensures Track(Run(HttpProcess, w, events).state, Run(HttpProcess, w, events).received, g)
    decreases |events|
  {
    hide Suspensions, OffersStream, Continues, Track, Next, HttpProcess;
    if events != [] {
      NextKeeps(HttpProcess, w, events[0]);
      var w1 := Next(HttpProcess, w, events[0]);
      RunGrows(w1, events[1..]);
      NextTracks(w, events[0], g);
      RunTracks(w1, events[1..], g);
    }
  }

  /** A client that has sent its request and reads the response. */
  function Asked(waiting: bool): App {
    App(Some(FRESH), waiting, false, [])
  }

  ghost function Connection(waiting: bool, events: seq<Event<App>>): (w: World<App>)
    ensures Inv(w)
  {
    HttpProcessIsHonest();
    EveryReachableState(HttpProcess, Asked(waiting), events);
    Run(HttpProcess, Start(Asked(waiting)), events)
  }

  lemma StartTracks(g: Goal)
    requires Parse(FRESH, g.stream) == Some(g.whole)
    ensures Track(Start(Asked(g.waiting)).state, "", g)
  {
    hide Parse;
    assert g.stream[0..] == g.stream;
    assert UnitAt(FRESH, "") == Wait(FRESH);
    FirstUnit(FRESH, "");
  }

  /** Exactly the octets of the message are consumed, the rest is still in the buffer,
      and the message is the one of a single call: handed to the awaiting client once if
      it is complete, kept otherwise. */
  ghost predicate Arrived(s: State<App>, g: Goal) {
    && s.consumed + Flat(s.input) == g.stream
    && |s.consumed| == g.whole.used
    && s.app == if g.whole.msg.complete && g.waiting then App(None, false, true, [g.whole.msg])
                else App(Some(g.whole.msg), g.waiting, g.whole.msg.complete, [])
  }

  lemma NothingLeftMeansArrived(s: State<App>, g: Goal)
    requires Track(s, g.stream, g) && Exhausted(s)
    ensures Arrived(s, g)
  {
    hide Parse;
    if s.app.message.Some? {
      var m := s.app.message.value;
      assert g.stream[|s.consumed|..] == Flat(s.input);
      if s.input != [] {
        var c := LastCall(s);
        assert c.offered[0..] == c.offered;
      }
      assert Parse(m, Flat(s.input)) == Some(Parsed(m, 0));
    }
  }

  /** End to end: whatever the packets, the read events and the segments of the buffer,
      once `read_cb` has run after the last packet the response is the one that a single
      call of `Message::process` reads from all the octets received. */
  lemma EndToEnd(waiting: bool, events: seq<Event<App>>)
    requires AllTraffic(events)
    requires WellFormed(FRESH, Connection(waiting, events).received)
    ensures var w := Connection(waiting, events);
            var last := Next(HttpProcess, w, Readable);
            Arrived(last.state, Goal(w.received, Parse(FRESH, w.received).value, waiting))
  {
    hide Parse, ReadCb, Inv, HttpProcess;
    var w := Connection(waiting, events);
    var g := Goal(w.received, Parse(FRESH, w.received).value, waiting);
    HttpProcessIsHonest();
    EveryReachableState(HttpProcess, Asked(waiting), events);
    StartTracks(g);
    RunTracks(Start(Asked(waiting)), events, g);
    NextTracks(w, Readable, g);
    ReadCbLeavesNothing(HttpProcess, w.state);
    NothingLeftMeansArrived(ReadCb(HttpProcess, w.state), g);
  }
}
