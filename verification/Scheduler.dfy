/** The deferred actions of `Loop` in src/covent.cpp and include/covent/loop.h: a multimap
    ordered by deadline, drained in batches by `run_once`. */
module Scheduler {
  import opened Text

  const MILLION := 1_000_000

  datatype Timeval = Timeval(sec: int, usec: int)

  predicate Normal(t: Timeval) {
    0 <= t.usec < MILLION
  }

  function Micros(t: Timeval): int {
    t.sec * MILLION + t.usec
  }

  /** `std::less<timeval>` */
  predicate Less(a: Timeval, b: Timeval) {
    if a.sec == b.sec then a.usec < b.usec else a.sec < b.sec
  }

  /** On normal times the comparison by parts is the comparison of instants. */
  lemma LessIsEarlier(a: Timeval, b: Timeval)
    requires Normal(a) && Normal(b)
    ensures Less(a, b) <==> Micros(a) < Micros(b)
    ensures a == b <==> Micros(a) == Micros(b)
  {
  }

  /** `number` counts insertions: it identifies the action. */
  datatype Entry = Entry(when: Timeval, number: nat)

  /** Earlier deadline, or the same deadline and inserted before. */
  predicate Before(a: Entry, b: Entry) {
    Less(a.when, b.when) || (a.when == b.when && a.number < b.number)
  }

  predicate Ordered(es: seq<Entry>) {
    forall i, j :: 0 <= i < j < |es| ==> Before(es[i], es[j])
  }

  /** `multimap::emplace`: behind every entry with an equal deadline. */
  function Insert(es: seq<Entry>, e: Entry): (r: seq<Entry>)
    ensures |r| == |es| + 1
  {
    if es == [] || Less(e.when, es[0].when) then [e] + es else [es[0]] + Insert(es[1..], e)
  }

  /** The deadline `defer` computes: one carry. */
  function Deadline(now: Timeval, delay: Timeval): Timeval {
    var sec, usec := now.sec + delay.sec, now.usec + delay.usec;
    if usec >= MILLION then Timeval(sec + 1, usec - MILLION) else Timeval(sec, usec)
  }

  lemma DeadlineIsExact(now: Timeval, delay: Timeval)
    requires Normal(now) && Normal(delay)
    ensures Normal(Deadline(now, delay)) && Micros(Deadline(now, delay)) == Micros(now) + Micros(delay)
    ensures delay.sec >= 0 ==> !Less(Deadline(now, delay), now)
  {
  }

  // ---- defer(double) -------------------------------------------------------

  /** Conversion of a floating-point number to an integer: towards zero. */
  function Trunc(x: real): int {
    if x >= 0.0 then x.Floor else -(-x).Floor
  }

  /** The remainder of the source language, with the sign of the dividend. */
  function Rem(a: int, b: nat): int
    requires b > 0
  {
    if a >= 0 then a % b else -((-a) % b)
  }

  function DelayOf(seconds: real): Timeval {
    Timeval(Trunc(seconds), Rem(Trunc(seconds * 1000000.0), MILLION))
  }

  /** A delay of `seconds` is scheduled as whole microseconds, rounded down. */
  lemma DelayIsExact(seconds: real)
    requires seconds >= 0.0
    ensures Normal(DelayOf(seconds)) && DelayOf(seconds).sec >= 0
    ensures Micros(DelayOf(seconds)) == (seconds * 1000000.0).Floor
  {
    var sec := seconds.Floor;
    var micros := (seconds * 1000000.0).Floor;
    assert sec as real <= seconds < sec as real + 1.0;
    assert sec * MILLION <= micros < sec * MILLION + MILLION;
    assert micros % MILLION == micros - sec * MILLION;
  }

  // ---- Runs ----------------------------------------------------------------

  /** `runNow` is the batch taken and not yet run, `executed` what ran before. `clock` is
      the latest reading. */
  datatype State = State(
    pending: seq<Entry>, runNow: seq<Entry>, executed: seq<Entry>, clock: Timeval, inserted: nat)

  const STARTED := State([], [], [], Timeval(0, 0), 0)

  datatype Event =
    | Defers(delay: Timeval, reading: Timeval)   // from anywhere, a running action included
    | TakesBatch(reading: Timeval)
    | RunsOne                                    // the next action of the batch is executed

  /** The clock does not go back. */
  function Later(a: Timeval, b: Timeval): Timeval {
    if Less(a, b) then b else a
  }

  predicate CanHappen(s: State, e: Event) {
    match e
    case Defers(delay, reading) => Normal(delay) && delay.sec >= 0 && Normal(reading)
    case TakesBatch(reading) => s.runNow == [] && Normal(reading)
    case RunsOne => s.runNow != []
  }

  /** How many of the first entries are due: strictly before `now`. */
  function DueCount(es: seq<Entry>, now: Timeval): (n: nat)
    ensures n <= |es|
    ensures forall i :: 0 <= i < n ==> Less(es[i].when, now)
    ensures n < |es| ==> !Less(es[n].when, now)
  {
    if es == [] || !Less(es[0].when, now) then 0 else 1 + DueCount(es[1..], now)
  }

  function Next(s: State, e: Event): State {
    if !CanHappen(s, e) then s
    else
      match e
      case Defers(delay, reading) =>
        var now := Later(s.clock, reading);
        s.(pending := Insert(s.pending, Entry(Deadline(now, delay), s.inserted)),
           clock := now, inserted := s.inserted + 1)
      case TakesBatch(reading) =>
        var now := Later(s.clock, reading);
        var n := DueCount(s.pending, now);
        s.(pending := s.pending[n..], runNow := s.pending[..n], clock := now)
      case RunsOne => s.(runNow := s.runNow[1..], executed := s.executed + [s.runNow[0]])
  }

  function Run(s: State, events: seq<Event>): State
    decreases |events|
  {
    if events == [] then s else Run(Next(s, events[0]), events[1..])
  }

  function All(s: State): seq<Entry> {
    s.executed + s.runNow + s.pending
  }

  /** Everything ever deferred is there once, in order of deadline and insertion, and what
      has left the map was due before the latest reading of the clock. */
  predicate Inv(s: State) {
    && Normal(s.clock)
    && Ordered(All(s))
    && (forall e <- All(s) :: Normal(e.when) && e.number < s.inserted)
    && (forall e <- s.executed + s.runNow :: Less(e.when, s.clock))
    && |All(s)| == s.inserted
  }

  lemma {:induction false} InsertKeepsOrder(front: seq<Entry>, es: seq<Entry>, e: Entry)
    requires Ordered(front + es)
    requires forall x <- front + es :: Normal(x.when) && x.number < e.number
    requires Normal(e.when) && forall x <- front :: Before(x, e)
    ensures Ordered(front + Insert(es, e))
    ensures forall x :: x in Insert(es, e) <==> x in es || x == e
    decreases |es|
  {
    if es == [] || Less(e.when, es[0].when) {
      forall i | 0 <= i < |es|
        ensures Before(e, es[i])
      {
        assert (front + es)[|front| + i] == es[i] && (front + es)[|front|] == es[0];
      }
      OrderedInsertion(front, es, e);
      assert front + Insert(es, e) == front + [e] + es;
    } else {
      var rest := es[1..];
      assert front + es == front + [es[0]] + rest;
      InsertKeepsOrder(front + [es[0]], rest, e);
      assert front + Insert(es, e) == front + [es[0]] + Insert(rest, e);
    }
  }

  lemma OrderedInsertion(front: seq<Entry>, es: seq<Entry>, e: Entry)
    requires Ordered(front + es)
    requires (forall x <- front :: Before(x, e)) && forall i :: 0 <= i < |es| ==> Before(e, es[i])
    ensures Ordered(front + [e] + es)
  {
    var all, r := front + es, front + [e] + es;
    assert forall i :: 0 <= i < |r| && i != |front| ==> r[i] == all[if i < |front| then i else i - 1];
  }

  lemma DeferKeeps(s: State, delay: Timeval, reading: Timeval)
    requires Inv(s) && CanHappen(s, Defers(delay, reading))
    ensures Inv(Next(s, Defers(delay, reading)))
  {
    var now := Later(s.clock, reading);
    DeadlineIsExact(now, delay);
    var e := Entry(Deadline(now, delay), s.inserted);
    var front := s.executed + s.runNow;
    assert forall x <- front :: Less(x.when, s.clock) && Before(x, e);
    InsertKeepsOrder(front, s.pending, e);
  }

  /** The reading a clock that does not go back gives. */
  function Latest(clock: Timeval, reading: Timeval): int {
    if Micros(reading) > Micros(clock) then Micros(reading) else Micros(clock)
  }

  lemma LaterIsLatest(clock: Timeval, reading: Timeval)
    requires Normal(clock) && Normal(reading)
    ensures Normal(Later(clock, reading)) && Micros(Later(clock, reading)) == Latest(clock, reading)
  {
  }

  lemma {:induction false} InsertAddsOne(es: seq<Entry>, e: Entry)
    ensures multiset(Insert(es, e)) == multiset(es) + multiset{e}
    decreases |es|
  {
    if !(es == [] || Less(e.when, es[0].when)) {
      InsertAddsOne(es[1..], e);
      assert es == [es[0]] + es[1..];
    }
  }

  /** `e` is what `defer` with `delay` at the time `now` puts into the map. */
  predicate ScheduledAt(e: Entry, number: nat, now: int, delay: Timeval) {
    e.number == number && Normal(e.when) && Micros(e.when) == now + Micros(delay)
  }

  /** Exactly one action is new, numbered next and due after the delay, counted from the
      reading; nothing else has moved. */
  ghost predicate Deferred(s: State, r: State, delay: Timeval, reading: Timeval) {
    && r.executed == s.executed && r.runNow == s.runNow && r.inserted == s.inserted + 1
    && Micros(r.clock) == Latest(s.clock, reading)
    && exists e :: ScheduledAt(e, s.inserted, Micros(r.clock), delay)
                && multiset(r.pending) == multiset(s.pending) + multiset{e}
  }

  lemma DeferEffect(s: State, delay: Timeval, reading: Timeval)
    requires Inv(s) && CanHappen(s, Defers(delay, reading))
    ensures Deferred(s, Next(s, Defers(delay, reading)), delay, reading)
  {
    hide Insert, Ordered;
    var r := Next(s, Defers(delay, reading));
    LaterIsLatest(s.clock, reading);
    DeadlineIsExact(r.clock, delay);
    var e := Entry(Deadline(r.clock, delay), s.inserted);
    InsertAddsOne(s.pending, e);
    assert ScheduledAt(e, s.inserted, Micros(r.clock), delay);
  }

  /** A batch is exactly what was due before the reading, in the order of the map. */
  lemma BatchEffect(s: State, reading: Timeval)
    requires Inv(s) && CanHappen(s, TakesBatch(reading))
    ensures var r := Next(s, TakesBatch(reading));
            && r.executed == s.executed && r.inserted == s.inserted && Micros(r.clock) == Latest(s.clock, reading)
            && s.pending == r.runNow + r.pending
            && (forall e <- r.runNow :: Micros(e.when) < Micros(r.clock))
            && (forall e <- r.pending :: Micros(e.when) >= Micros(r.clock))
  {
    hide Inv, Ordered, Less, DueCount;
    PendingIsOrdered(s);
    LaterIsLatest(s.clock, reading);
    DueExactly(s.pending, Later(s.clock, reading));
  }

  lemma PendingIsOrdered(s: State)
    requires Inv(s)
    ensures Normal(s.clock) && Ordered(s.pending) && forall e <- s.pending :: Normal(e.when)
  {
    var k := |s.executed| + |s.runNow|;
    assert All(s)[k..] == s.pending;
    assert forall e <- s.pending :: e in All(s);
  }

  lemma DueExactly(es: seq<Entry>, now: Timeval)
    requires Ordered(es) && Normal(now) && forall e <- es :: Normal(e.when)
    ensures var n := DueCount(es, now);
            && (forall e <- es[..n] :: Micros(e.when) < Micros(now))
            && (forall e <- es[n..] :: Micros(e.when) >= Micros(now))
  {
    hide DueCount;
  }

  lemma BatchKeeps(s: State, reading: Timeval)
    requires Inv(s) && CanHappen(s, TakesBatch(reading))
    ensures Inv(Next(s, TakesBatch(reading)))
  {
    var now := Later(s.clock, reading);
    var n := DueCount(s.pending, now);
    var r := Next(s, TakesBatch(reading));
    assert s.pending == s.pending[..n] + s.pending[n..];
    assert All(r) == All(s);
    assert forall e <- s.executed :: e in s.executed + s.runNow;
  }

  lemma OneMoreDue(es: seq<Entry>, now: Timeval)
    requires es != [] && Less(es[0].when, now)
    ensures DueCount(es, now) == 1 + DueCount(es[1..], now)
  {
  }

  lemma NoMoreDue(es: seq<Entry>, now: Timeval)
    requires es == [] || !Less(es[0].when, now)
    ensures DueCount(es, now) == 0
  {
  }

  lemma BatchTaken(s: State, reading: Timeval, n: nat)
    requires CanHappen(s, TakesBatch(reading)) && n == DueCount(s.pending, Later(s.clock, reading))
    ensures Next(s, TakesBatch(reading))
         == s.(pending := s.pending[n..], runNow := s.pending[..n], clock := Later(s.clock, reading))
  {
    hide DueCount, Less;
  }

  lemma ClockIsNormal(s: State)
    requires Inv(s)
    ensures Normal(s.clock)
  {
  }

  lemma RunKeepsOrder(s: State)
    requires Inv(s) && CanHappen(s, RunsOne)
    ensures Inv(Next(s, RunsOne))
  {
    var r := Next(s, RunsOne);
    assert r.executed + r.runNow == s.executed + s.runNow;
  }

  lemma {:induction false} RunKeeps(s: State, events: seq<Event>)
    requires Inv(s)
    ensures Inv(Run(s, events))
    decreases |events|
  {
    hide Inv;
    if events != [] {
      var e := events[0];
      if CanHappen(s, e) {
        match e
        case Defers(delay, reading) => DeferKeeps(s, delay, reading);
        case TakesBatch(reading) => BatchKeeps(s, reading);
        case RunsOne => RunKeepsOrder(s);
      }
      RunKeeps(Next(s, e), events[1..]);
    }
  }

  /** Over a whole run, across batches as well as inside one, and whatever running actions
      defer: actions are executed in order of deadline and, for equal deadlines, of
      insertion; none is executed twice or lost; and what is executed was due. */
  lemma WholeRunInOrder(events: seq<Event>)
    ensures var s := Run(STARTED, events);
            && Ordered(s.executed)
            && |s.executed| + |s.runNow| + |s.pending| == s.inserted
            && (forall e <- s.executed, p <- s.runNow + s.pending :: Before(e, p))
            && (forall e <- s.executed :: Less(e.when, s.clock))
  {
    hide Run;
    RunKeeps(STARTED, events);
    var s := Run(STARTED, events);
    var n := |s.executed|;
    var rest := s.runNow + s.pending;
    assert All(s) == s.executed + rest;
    assert All(s)[..n] == s.executed;
    forall e, p | e in s.executed && p in rest
      ensures Before(e, p)
    {
      var i :| 0 <= i < n && s.executed[i] == e;
      var j :| 0 <= j < |rest| && rest[j] == p;
      assert All(s)[i] == e && All(s)[n + j] == p;
    }
    assert forall e <- s.executed :: e in s.executed + s.runNow;
  }

  // ---- Not too early -------------------------------------------------------

  /** `e` is there, and what has its number is `e`. */
  predicate Holds(s: State, e: Entry) {
    e in All(s) && e.number < s.inserted && forall x <- All(s) :: x.number == e.number ==> x == e
  }

  lemma HoldsOn(s: State, r: State, entry: Entry)
    requires Holds(s, entry) && entry in All(r) && r.inserted >= s.inserted
    requires forall x <- All(r) :: x in All(s) || x.number >= s.inserted
    ensures Holds(r, entry)
  {
    hide All;
  }

  lemma InsertHas(es: seq<Entry>, e: Entry, x: Entry)
    ensures x in Insert(es, e) <==> x in es || x == e
  {
    hide Insert;
    InsertAddsOne(es, e);
    assert x in Insert(es, e) <==> x in multiset(Insert(es, e));
  }

  lemma NextHolds(s: State, e: Event, entry: Entry)
    requires Holds(s, entry)
    ensures Holds(Next(s, e), entry)
  {
    hide Insert, Less, Holds, DueCount;
    if CanHappen(s, e) {
      var r := Next(s, e);
      match e {
        case Defers(delay, reading) =>
          var added := Entry(Deadline(Later(s.clock, reading), delay), s.inserted);
          forall x
            ensures x in All(r) <==> x in All(s) || x == added
          {
            InsertHas(s.pending, added, x);
          }
        case TakesBatch(reading) =>
          var n := DueCount(s.pending, Later(s.clock, reading));
          assert s.pending == s.pending[..n] + s.pending[n..];
          assert All(r) == All(s);
        case RunsOne =>
          assert All(r) == All(s);
      }
      HeldThere(s, entry);
      HoldsOn(s, r, entry);
    }
  }

  lemma HeldThere(s: State, entry: Entry)
    requires Holds(s, entry)
    ensures entry in All(s)
  {
  }

  lemma {:induction false} RunHolds(s: State, events: seq<Event>, entry: Entry)
    requires Inv(s) && Holds(s, entry)
    ensures Holds(Run(s, events), entry)
    decreases |events|
  {
    hide Inv, Holds, Next;
    if events != [] {
      RunKeeps(s, events[..1]);
      assert events[..1][1..] == [] && events[..1][0] == events[0];
      assert Run(Next(s, events[0]), []) == Next(s, events[0]);
      NextHolds(s, events[0], entry);
      RunHolds(Next(s, events[0]), events[1..], entry);
    }
  }

  lemma {:induction false} RunSplits(s: State, first: seq<Event>, second: seq<Event>)
    ensures Run(s, first + second) == Run(Run(s, first), second)
    decreases |first|
  {
    hide Next;
    if first == [] {
      assert first + second == second;
    } else {
      assert (first + second)[1..] == first[1..] + second;
      RunSplits(Next(s, first[0]), first[1..], second);
    }
  }

  lemma DeferredIsHeld(s: State, delay: Timeval, reading: Timeval) returns (e: Entry)
    requires Inv(s) && CanHappen(s, Defers(delay, reading))
    ensures ScheduledAt(e, s.inserted, Latest(s.clock, reading), delay)
    ensures Holds(Next(s, Defers(delay, reading)), e)
  {
    hide Insert, Ordered;
    var r := Next(s, Defers(delay, reading));
    DeferEffect(s, delay, reading);
    e :| ScheduledAt(e, s.inserted, Micros(r.clock), delay)
      && multiset(r.pending) == multiset(s.pending) + multiset{e};
    assert e in multiset(r.pending);
    forall x | x in All(r) && x.number == e.number
      ensures x == e
    {
      assert x !in All(s);
      assert x in r.pending && x in multiset(r.pending);
    }
  }

  /** In every run the action deferred by event `k` is there, once, under its number; it is due
      after its delay, counted from the reading at its `defer`, and has not left the map
      before a reading behind that. */
  lemma DeferredNotEarly(events: seq<Event>, k: nat) returns (e: Entry)
    requires k < |events| && events[k].Defers? && CanHappen(Run(STARTED, events[..k]), events[k])
    ensures var before, s := Run(STARTED, events[..k]), Run(STARTED, events);
            && ScheduledAt(e, before.inserted, Latest(before.clock, events[k].reading), events[k].delay)
            && Holds(s, e) && (e in s.executed + s.runNow ==> Micros(e.when) < Micros(s.clock))
  {
    hide Run, Next, Holds, ScheduledAt;
    var before, s := Run(STARTED, events[..k]), Run(STARTED, events);
    RunKeeps(STARTED, events[..k]);
    e := DeferredIsHeld(before, events[k].delay, events[k].reading);
    RunAppends(STARTED, events[..k], events[k]);
    assert events[..k] + [events[k]] == events[..k + 1];
    RunKeeps(STARTED, events[..k + 1]);
    RunHolds(Run(STARTED, events[..k + 1]), events[k + 1..], e);
    RunSplits(STARTED, events[..k + 1], events[k + 1..]);
    assert events[..k + 1] + events[k + 1..] == events;
    RunKeeps(STARTED, events);
    HeldIsNormal(s, e);
  }

  lemma HeldIsNormal(s: State, e: Entry)
    requires Inv(s) && Holds(s, e)
    ensures e in s.executed + s.runNow ==> Micros(e.when) < Micros(s.clock)
  {
    if e in s.executed + s.runNow {
      LessIsEarlier(e.when, s.clock);
    }
  }

  // ---- The class -----------------------------------------------------------

  /** What one action does when it is run: it defers others, reading the clock each time. */
  datatype Deferral = Deferral(delay: Timeval, reading: Timeval)

  predicate Valid(d: Deferral) {
    Normal(d.delay) && d.delay.sec >= 0 && Normal(d.reading)
  }

  /** One turn of the loop in `run_once`: the reading of the clock, and what each action of
      the batch defers. */
  datatype Turn = Turn(reading: Timeval, deferrals: seq<seq<Deferral>>)

  predicate ValidTurn(t: Turn) {
    Normal(t.reading) && forall i, j :: 0 <= i < |t.deferrals| && 0 <= j < |t.deferrals[i]| ==> Valid(t.deferrals[i][j])
  }

  function DeferralsOf(deferrals: seq<seq<Deferral>>, k: nat): seq<Deferral> {
    if k < |deferrals| then deferrals[k] else []
  }

  /** What happens when the first `n` actions of a batch are run: each may defer others. */
  function ActionEvents(deferrals: seq<seq<Deferral>>, n: nat): seq<Event> {
    if n == 0 then []
    else ActionEvents(deferrals, n - 1) + [RunsOne] + DeferEvents(DeferralsOf(deferrals, n - 1))
  }

  function DeferEvents(deferrals: seq<Deferral>): seq<Event> {
    seq(|deferrals|, i requires 0 <= i < |deferrals| => Defers(deferrals[i].delay, deferrals[i].reading))
  }

  /** What happens in the first turns: batch `i` is taken at the reading of turn `i`, and its
      `sizes[i]` actions are run. */
  function TurnEvents(turns: seq<Turn>, sizes: seq<nat>): seq<Event>
    requires |sizes| <= |turns|
    decreases |sizes|
  {
    if sizes == [] then []
    else
      var i := |sizes| - 1;
      TurnEvents(turns, sizes[..i]) + [TakesBatch(turns[i].reading)] + ActionEvents(turns[i].deferrals, sizes[i])
  }

  lemma NothingYet(turns: seq<Turn>, taken: seq<Event>, deferrals: seq<seq<Deferral>>)
    ensures TurnEvents(turns, []) == [] && taken + ActionEvents(deferrals, 0) == taken
  {
  }

  lemma OneMoreAction(taken: seq<Event>, deferrals: seq<seq<Deferral>>, k: nat)
    ensures taken + ActionEvents(deferrals, k + 1)
         == taken + ActionEvents(deferrals, k) + ([RunsOne] + DeferEvents(DeferralsOf(deferrals, k)))
  {
  }

  lemma OneMoreDeferral(deferrals: seq<Deferral>, j: nat)
    requires j < |deferrals|
    ensures DeferEvents(deferrals[..j + 1])
         == DeferEvents(deferrals[..j]) + [Defers(deferrals[j].delay, deferrals[j].reading)]
  {
  }

  lemma RunOneEvent(s: State, e: Event)
    ensures Run(s, [e]) == Next(s, e)
  {
    hide Next;
    assert [e][1..] == [];
  }

  lemma RunsNext(s: State)
    requires s.runNow != []
    ensures Next(s, RunsOne) == s.(runNow := s.runNow[1..], executed := s.executed + [s.runNow[0]])
  {
  }

  lemma DeferLeavesBatch(s: State, delay: Timeval, reading: Timeval)
    ensures Next(s, Defers(delay, reading)).runNow == s.runNow
  {
  }

  lemma OneMoreTurn(turns: seq<Turn>, sizes: seq<nat>, n: nat)
    requires |sizes| < |turns|
    ensures TurnEvents(turns, sizes + [n])
         == TurnEvents(turns, sizes) + [TakesBatch(turns[|sizes|].reading)]
            + ActionEvents(turns[|sizes|].deferrals, n)
  {
    assert (sizes + [n])[..|sizes|] == sizes;
  }

  class Loop {
    var pending: seq<Entry>
    ghost var runNow: seq<Entry>
    ghost var executed: seq<Entry>
    var clock: Timeval
    var inserted: nat

    constructor ()
      ensures Now() == STARTED
    {
      pending, runNow, executed, clock, inserted := [], [], [], Timeval(0, 0), 0;
    }

    ghost function Now(): State
      reads this
    {
      State(pending, runNow, executed, clock, inserted)
    }

    /** `gettimeofday` */
    method ReadClock(reading: Timeval) returns (now: Timeval)
      requires Normal(reading) && Normal(clock)
      modifies this`clock
      ensures now == clock == Later(old(clock), reading) && Normal(now)
    {
      if Less(clock, reading) {
        clock := reading;
      }
      now := clock;
    }

    method Defer(delay: Timeval, reading: Timeval)
      requires Inv(Now()) && Valid(Deferral(delay, reading))
      modifies this
      ensures Now() == Next(old(Now()), Defers(delay, reading)) && Inv(Now())
      ensures Deferred(old(Now()), Now(), delay, reading)
    {
      hide Insert, Ordered, Deferred;
      DeferKeeps(Now(), delay, reading);
      DeferEffect(Now(), delay, reading);
      var when := ReadClock(reading);
      when := Timeval(when.sec + delay.sec, when.usec + delay.usec);
      if when.usec >= MILLION {
        when := Timeval(when.sec + 1, when.usec - MILLION);
      }
      pending := Insert(pending, Entry(when, inserted));
      inserted := inserted + 1;
    }

    /** Whether the head is due already; if it is not, the interval after which the event
        loop is to be left. */
    method SetNextBreak(reading: Timeval) returns (due: bool, interval: Option<Timeval>)
      requires Inv(Now()) && Normal(reading)
      modifies this`clock
      ensures clock == Later(old(clock), reading)
      ensures due <==> pending != [] && Micros(pending[0].when) <= Micros(clock)
      ensures interval.Some? <==> pending != [] && !due
      ensures interval.Some? ==>
                && 1 <= interval.value.usec <= MILLION && interval.value.sec >= 0
                && Micros(interval.value) == Micros(pending[0].when) - Micros(clock)
    {
      var now := ReadClock(reading);
      due, interval := false, None;
      if pending == [] {
        return;
      }
      assert pending[0] in All(Now());
      LessIsEarlier(now, pending[0].when);
      LessIsEarlier(pending[0].when, now);
      var t := pending[0].when;
      if t.usec <= now.usec {
        if t.sec <= now.sec {
          due := true;
          return;
        }
        t := Timeval(t.sec - 1, t.usec + MILLION);
      }
      if t.sec < now.sec {
        due := true;
        return;
      }
      interval := Some(Timeval(t.sec - now.sec, t.usec - now.usec));
    }

    /** The due actions leave the map, in order. */
    method TakeDue(reading: Timeval) returns (batch: seq<Entry>)
      requires Inv(Now()) && runNow == [] && Normal(reading)
      modifies this
      ensures Now() == Next(old(Now()), TakesBatch(reading)) && batch == runNow && Inv(Now())
      ensures pending == [] || !Less(pending[0].when, clock)
    {
      hide Inv, Less, DueCount, Next;
      ghost var before, was := Now(), pending;
      ClockIsNormal(before);
      BatchKeeps(before, reading);
      var now := ReadClock(reading);
      batch := [];
      while pending != [] && Less(pending[0].when, now)
        invariant Now() == before.(pending := pending, clock := now)
        invariant |batch| <= |was| && batch == was[..|batch|] && pending == was[|batch|..]
        invariant |batch| + DueCount(pending, now) == DueCount(was, now)
        decreases |pending|
      {
        OneMoreDue(pending, now);
        assert was[..|batch| + 1] == was[..|batch|] + [was[|batch|]];
        batch := batch + [pending[0]];
        pending := pending[1..];
      }
      NoMoreDue(pending, now);
      runNow := batch;
      BatchTaken(before, reading, |batch|);
    }

    /** The next action of the batch is run, which may defer others. */
    method RunAction(deferrals: seq<Deferral>)
      requires Inv(Now()) && runNow != [] && forall j :: 0 <= j < |deferrals| ==> Valid(deferrals[j])
      modifies this
      ensures Now() == Run(old(Now()), [RunsOne] + DeferEvents(deferrals)) && Inv(Now())
      ensures runNow == old(runNow)[1..]
    {
      hide Inv, Next;
      ghost var events := [RunsOne];
      RunOneEvent(Now(), RunsOne);
      RunKeepsOrder(Now());
      RunsNext(Now());
      executed, runNow := executed + [runNow[0]], runNow[1..];
      var j := 0;
      while j < |deferrals|
        invariant j <= |deferrals| && runNow == old(runNow)[1..]
        invariant events == [RunsOne] + DeferEvents(deferrals[..j])
        invariant Now() == Run(old(Now()), events) && Inv(Now())
      {
        var d := deferrals[j];
        RunAppends(old(Now()), events, Defers(d.delay, d.reading));
        OneMoreDeferral(deferrals, j);
        events := events + [Defers(d.delay, d.reading)];
        DeferLeavesBatch(Now(), d.delay, d.reading);
        Defer(d.delay, d.reading);
        j := j + 1;
      }
      assert deferrals[..j] == deferrals;
    }

    /** The action loop of `run_once`, for as many turns as are given. A batch is taken at the
        reading of each and every action in it is run, up to the first turn that finds nothing
        due; if none does, the turns have run out. */
    method RunOnce(turns: seq<Turn>) returns (ghost sizes: seq<nat>, idle: bool)
      requires Inv(Now()) && runNow == [] && forall i :: 0 <= i < |turns| ==> ValidTurn(turns[i])
      modifies this
      ensures |sizes| <= |turns| && Now() == Run(old(Now()), TurnEvents(turns, sizes)) && Inv(Now()) && runNow == []
      ensures if idle then sizes != [] && sizes[|sizes| - 1] == 0 else |sizes| == |turns|
      ensures forall i :: 0 <= i < |sizes| - (if idle then 1 else 0) ==> sizes[i] > 0
      ensures idle ==> pending == [] || !Less(pending[0].when, clock)
    {
      hide Inv, Next, ActionEvents, TurnEvents;
      sizes, idle := [], false;
      ghost var events: seq<Event> := [];
      NothingYet(turns, [], []);
      var i := 0;
      while i < |turns|
        invariant i == |sizes| <= |turns| && events == TurnEvents(turns, sizes)
        invariant Now() == Run(old(Now()), events) && Inv(Now()) && runNow == []
        invariant forall j :: 0 <= j < i ==> sizes[j] > 0
      {
        RunAppends(old(Now()), events, TakesBatch(turns[i].reading));
        events := events + [TakesBatch(turns[i].reading)];
        NothingYet(turns, events, turns[i].deferrals);
        var batch := TakeDue(turns[i].reading);
        if batch == [] {
          OneMoreTurn(turns, sizes, 0);
          sizes, idle := sizes + [0], true;
          return;
        }
        ghost var taken := events;
        var k := 0;
        while k < |batch|
          invariant k <= |batch| && runNow == batch[k..]
          invariant events == taken + ActionEvents(turns[i].deferrals, k)
          invariant Now() == Run(old(Now()), events) && Inv(Now())
        {
          var deferrals := DeferralsOf(turns[i].deferrals, k);
          ghost var more := [RunsOne] + DeferEvents(deferrals);
          RunAction(deferrals);
          RunSplits(old(Now()), events, more);
          OneMoreAction(taken, turns[i].deferrals, k);
          events := events + more;
          k := k + 1;
        }
        OneMoreTurn(turns, sizes, |batch|);
        sizes := sizes + [|batch|];
        i := i + 1;
      }
    }
  }

  lemma {:induction false} RunAppends(s: State, events: seq<Event>, e: Event)
    ensures Run(s, events + [e]) == Next(Run(s, events), e)
    decreases |events|
  {
    hide Next;
    if events == [] {
      assert [e][1..] == [];
      assert Run(Next(s, e), []) == Next(s, e);
    } else {
      assert (events + [e])[1..] == events[1..] + [e];
      RunAppends(Next(s, events[0]), events[1..], e);
    }
  }
}
