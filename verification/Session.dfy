/** The reading side of `Session` in src/session.cpp: an input buffer in segments, at
    most one `process` task in flight, and `read_cb`, which offers first the contiguous
    head of the buffer and then the whole of it. `process` is any function. */
module Session {

  datatype Reply = Used(octets: nat) | Throws | Suspends

  /** What one run of `process` does: the state of the derived session afterwards, its
      answer, and whether it called `close` on the way. */
  datatype Step<P> = Step(app: P, reply: Reply, closes: bool)

  /** One call: where in the stream the offered octets begin, the octets, the answer. */
  datatype Call = Call(at: nat, offered: string, reply: Reply)

  datatype Processor = Idle | InFlight | Finished

  /** `consumed` and `calls` are history: the octets drained and the calls made. */
  datatype State<P> = State(
    input: seq<string>,
    processor: Processor,
    closing: bool,
    open: bool,
    outputPending: bool,
    app: P,
    consumed: string,
    calls: seq<Call>)

  function Connected<P>(app: P): State<P> {
    State([], Idle, false, true, false, app, "", [])
  }

  // ---- The input buffer ----------------------------------------------------

  function Flat(segments: seq<string>): string {
    if segments == [] then "" else segments[0] + Flat(segments[1..])
  }

  predicate NoEmptySegment(segments: seq<string>) {
    forall i :: 0 <= i < |segments| ==> segments[i] != ""
  }

  /** `evbuffer_drain`: up to `n` octets are dropped from the front. */
  function Drained(segments: seq<string>, n: nat): (r: seq<string>)
    requires NoEmptySegment(segments)
    ensures NoEmptySegment(r)
    ensures Flat(r) == if n <= |Flat(segments)| then Flat(segments)[n..] else ""
  {
    if segments == [] || n == 0 then segments
    else
      var rest := Flat(segments[1..]);
      if n >= |segments[0]| then
        assert n <= |Flat(segments)| ==> Flat(segments)[n..] == rest[n - |segments[0]|..];
        Drained(segments[1..], n - |segments[0]|)
      else
        var r := [segments[0][n..]] + segments[1..];
        assert r[1..] == segments[1..];
        r
  }

  /** `evbuffer_pullup(buf, -1)`: one segment. */
  function PulledUp(segments: seq<string>): (r: seq<string>)
    ensures Flat(r) == Flat(segments) && NoEmptySegment(r)
  {
    if Flat(segments) == "" then []
    else
      var r := [Flat(segments)];
      assert r[1..] == [];
      r
  }

  lemma FlatIsEmpty(segments: seq<string>)
    requires NoEmptySegment(segments)
    ensures Flat(segments) == "" <==> segments == []
  {
    if segments != [] {
      assert segments[0] != "";
    }
  }

  // ---- read_cb, processing_complete and close ------------------------------

  /** `close`: put off while a task is in flight or output is pending; freeing the
      bufferevent loses what it still held. */
  function Close<P>(s: State<P>): State<P> {
    if s.processor.InFlight? || !s.open || s.outputPending then s.(closing := true)
    else s.(closing := true, open := false, input := [])
  }

  /** `process` is started on `offered` and answers at once or suspends. */
  function Offer<P>(f: (P, string) -> Step<P>, s: State<P>, offered: string): (r: State<P>)
    ensures r.calls == s.calls + [Call(|s.consumed|, offered, f(s.app, offered).reply)]
    ensures r.consumed == s.consumed && r.app == f(s.app, offered).app
    ensures !LastReply(r).Throws? ==> r.input == s.input && r.open == s.open
  {
    var step := f(s.app, offered);
    var s1 := s.(app := step.app,
                 closing := s.closing || step.closes,
                 calls := s.calls + [Call(|s.consumed|, offered, step.reply)]);
    match step.reply
    case Suspends => s1.(processor := InFlight)
    case Throws => Close(s1)
    case Used(_) => s1
  }

  /** `used`: the octets leave the buffer. */
  function Consume<P>(s: State<P>, n: nat): (r: State<P>)
    requires NoEmptySegment(s.input)
    ensures NoEmptySegment(r.input)
    ensures r.consumed + Flat(r.input) == s.consumed + Flat(s.input)
    ensures |r.consumed| == |s.consumed| + if n <= |Flat(s.input)| then n else |Flat(s.input)|
  {
    var buffer := Flat(s.input);
    s.(input := Drained(s.input, n),
       consumed := s.consumed + if n <= |buffer| then buffer[..n] else buffer)
  }

  function LastReply<P>(s: State<P>): Reply
    requires s.calls != []
  {
    s.calls[|s.calls| - 1].reply
  }

  /** One turn of either loop: offer, and drain what was used. */
  function Turn<P>(f: (P, string) -> Step<P>, s: State<P>, offered: string): (r: State<P>)
    requires NoEmptySegment(s.input)
    ensures r.calls == s.calls + [Call(|s.consumed|, offered, f(s.app, offered).reply)]
    ensures NoEmptySegment(r.input)
    ensures LastReply(r).Used? && LastReply(r).octets > 0 && s.input != [] ==> |Flat(r.input)| < |Flat(s.input)|
  {
    var s1 := Offer(f, s, offered);
    match LastReply(s1)
    case Used(n) =>
      FlatIsEmpty(s.input);
      Consume(s1, n)
    case other => s1
  }

  lemma TurnIs<P>(f: (P, string) -> Step<P>, s: State<P>, offered: string)
    requires NoEmptySegment(s.input)
    ensures var s1 := Offer(f, s, offered);
            && LastReply(Turn(f, s, offered)) == LastReply(s1)
            && Turn(f, s, offered) == match LastReply(s1)
                                      case Used(n) => if n == 0 then s1 else Consume(s1, n)
                                      case other => s1
  {
    if LastReply(Offer(f, s, offered)) == Used(0) {
      ConsumeNothing(Offer(f, s, offered));
    }
  }

  lemma ConsumeNothing<P>(s: State<P>)
    requires NoEmptySegment(s.input)
    ensures Consume(s, 0) == s
  {
    assert s.consumed + Flat(s.input)[..0] == s.consumed;
  }

  /** The first loop: the contiguous head is offered again and again. When none of it
      was used and there is more behind it, the second loop follows. */
  function Contiguous<P>(f: (P, string) -> Step<P>, s: State<P>): State<P>
    requires NoEmptySegment(s.input)
    decreases |Flat(s.input)|
  {
    if s.input == [] then s
    else
      var s1 := Turn(f, s, s.input[0]);
      match LastReply(s1)
      case Used(n) => if n > 0 then Contiguous(f, s1) else if |s1.input| <= 1 then s1 else AllData(f, s1)
      case other => s1
  }

  /** The second loop: everything is made contiguous and offered. */
  function AllData<P>(f: (P, string) -> Step<P>, s: State<P>): State<P>
    requires NoEmptySegment(s.input)
    decreases |Flat(s.input)|
  {
    if s.input == [] then s
    else
      FlatIsEmpty(s.input);
      var s1 := Turn(f, s.(input := PulledUp(s.input)), Flat(s.input));
      match LastReply(s1)
      case Used(n) => if n > 0 then AllData(f, s1) else s1
      case other => s1
  }

  function ReadCb<P>(f: (P, string) -> Step<P>, s: State<P>): State<P>
    requires NoEmptySegment(s.input)
  {
    if s.processor.InFlight? then s else Contiguous(f, s.(processor := Idle))
  }

  /** The task in flight comes to its end, and `processing_complete` runs. */
  function Complete<P>(s: State<P>, step: Step<P>): State<P>
    requires NoEmptySegment(s.input)
  {
    var s1 := s.(processor := Finished, app := step.app, closing := s.closing || step.closes);
    match step.reply
    case Used(n) =>
      var s2 := Consume(s1, n);
      if s2.closing then Close(s2) else s2
    case other => Close(s1)
  }

  // ---- The class -----------------------------------------------------------

  class Session<P> {
    const process: (P, string) -> Step<P>
    var input: seq<string>
    var processor: Processor
    var closing: bool
    var open: bool
    var outputPending: bool
    var app: P
    ghost var consumed: string
    ghost var calls: seq<Call>

    /** A connected session with nothing read yet. */
    constructor (process: (P, string) -> Step<P>, app: P)
      ensures this.process == process && Now() == Connected(app)
    {
      this.process, this.app := process, app;
      input, processor, closing, open, outputPending := [], Idle, false, true, false;
      consumed, calls := "", [];
    }

    ghost function Now(): State<P>
      reads this
    {
      State(input, processor, closing, open, outputPending, app, consumed, calls)
    }

    method CloseSession()
      modifies this`closing, this`open, this`input
      ensures Now() == Close(old(Now()))
    {
      closing := true;
      if processor.InFlight? {
        return;
      }
      if open {
        if outputPending {
          return;
        }
        open, input := false, [];
      }
    }

    method UseOctets(n: nat)
      requires NoEmptySegment(input)
      modifies this`input, this`consumed
      ensures Now() == Consume(old(Now()), n)
    {
      ghost var buffer := Flat(input);
      input := Drained(input, n);
      consumed := consumed + if n <= |buffer| then buffer[..n] else buffer;
    }

    /** `m_processor.emplace`, `start`, and what follows when the task is not simply
        done with a count. */
    method Run(offered: string) returns (reply: Reply)
      modifies this
      ensures Now() == Offer(process, old(Now()), offered)
      ensures reply == process(old(app), offered).reply
    {
      var step := process(app, offered);
      app := step.app;
      closing := closing || step.closes;
      calls := calls + [Call(|consumed|, offered, step.reply)];
      reply := step.reply;
      match reply
      case Suspends => processor := InFlight;
      case Throws => CloseSession();
      case Used(_) =>
    }

    /** `read_cb`: both loops come to an end because what is unread gets shorter. */
    method OnReadable()
      requires NoEmptySegment(input)
      modifies this
      ensures Now() == ReadCb(process, old(Now()))
    {
      hide Consume, Close, Offer, Turn, Flat, Drained, NoEmptySegment;
      if processor.InFlight? {
        return;
      }
      processor := Idle;
      ghost var result := ReadCb(process, old(Now()));
      while input != []
        invariant NoEmptySegment(input) && Contiguous(process, Now()) == result
        decreases |Flat(input)|
      {
        TurnIs(process, Now(), input[0]);
        var reply := Run(input[0]);
        if !reply.Used? {
          return;
        }
        if reply.octets == 0 {
          break;
        }
        UseOctets(reply.octets);
      }
      if |input| <= 1 {
        return;
      }
      while input != []
        invariant NoEmptySegment(input) && AllData(process, Now()) == result
        decreases |Flat(input)|
      {
        FlatIsEmpty(input);
        var whole := Flat(input);
        input := PulledUp(input);
        TurnIs(process, Now(), whole);
        var reply := Run(whole);
        if !reply.Used? {
          return;
        }
        if reply.octets == 0 {
          break;
        }
        UseOctets(reply.octets);
      }
    }

    method ProcessingComplete(step: Step<P>)
      requires NoEmptySegment(input)
      modifies this
      ensures Now() == Complete(old(Now()), step)
    {
      processor := Finished;
      app := step.app;
      closing := closing || step.closes;
      match step.reply
      case Used(n) =>
        UseOctets(n);
        if closing {
          CloseSession();
        }
      case other => CloseSession();
    }
  }
}
