/** `Service::Entry::srv_lookup` of src/service.cpp: the answers are merged, sorted by
    priority and handed out one by one, weighted within a priority (RFC 2782). */
module SrvLookup {

  datatype Rr = Rr(hostname: string, port: nat, weight: nat, priority: nat, service: string)

  datatype Answer = Answer(rrs: seq<Rr>, dnssec: bool)

  /** A random draw for the `k`th selection: any value of 0..total. */
  type Draws = (nat, nat) -> nat

  function Draw(draws: Draws, k: nat, total: nat): (d: nat)
    ensures d <= total
  {
    draws(k, total) % (total + 1)
  }

  // ---- Merging -------------------------------------------------------------

  predicate Admitted(a: Answer, dnssecOnly: bool) {
    a.dnssec || !dnssecOnly
  }

  /** The records of the admitted answers, in the order of the answers. */
  function AdmittedRrs(answers: seq<Answer>, dnssecOnly: bool): seq<Rr> {
    if answers == [] then []
    else (if Admitted(answers[0], dnssecOnly) then answers[0].rrs else []) + AdmittedRrs(answers[1..], dnssecOnly)
  }

  lemma {:induction false} AdmittedAppended(front: seq<Answer>, a: Answer, dnssecOnly: bool)
    ensures AdmittedRrs(front + [a], dnssecOnly)
         == AdmittedRrs(front, dnssecOnly) + if Admitted(a, dnssecOnly) then a.rrs else []
    decreases |front|
  {
    hide Admitted;
    if front == [] {
      assert (front + [a])[1..] == [];
    } else {
      assert (front + [a])[1..] == front[1..] + [a] && (front + [a])[0] == front[0];
      AdmittedAppended(front[1..], a, dnssecOnly);
      var head, rest := front[0].rrs, AdmittedRrs(front[1..], dnssecOnly);
      assert head + (rest + a.rrs) == head + rest + a.rrs && head + (rest + []) == head + rest + [];
    }
  }

  /** How often `r` stands in the answers that count: the validated ones, or all of them. */
  function Occurrences(answers: seq<Answer>, dnssecOnly: bool, r: Rr): nat {
    if answers == [] then 0
    else
      (if answers[0].dnssec || !dnssecOnly then multiset(answers[0].rrs)[r] else 0)
      + Occurrences(answers[1..], dnssecOnly, r)
  }

  /** A record is merged as often as it occurs in answers that are validated, or in all when
      validation is not asked for; a record of no such answer is not. */
  lemma {:induction false} AdmittedExactly(answers: seq<Answer>, dnssecOnly: bool, r: Rr)
    ensures multiset(AdmittedRrs(answers, dnssecOnly))[r] == Occurrences(answers, dnssecOnly, r)
    ensures r in AdmittedRrs(answers, dnssecOnly) <==>
            exists i :: 0 <= i < |answers| && (answers[i].dnssec || !dnssecOnly) && r in answers[i].rrs
  {
    if answers != [] {
      var rest := answers[1..];
      AdmittedExactly(rest, dnssecOnly, r);
      if i :| 0 <= i < |rest| && (rest[i].dnssec || !dnssecOnly) && r in rest[i].rrs {
        assert answers[i + 1] == rest[i];
      }
      if i :| 0 < i < |answers| && (answers[i].dnssec || !dnssecOnly) && r in answers[i].rrs {
        assert rest[i - 1] == answers[i];
      }
    }
  }

  /** The first answer's records are kept or cleared, the others' appended or skipped. */
  method Merge(answers: seq<Answer>, dnssecOnly: bool) returns (rrs: seq<Rr>)
    requires answers != []
    ensures rrs == AdmittedRrs(answers, dnssecOnly)
  {
    rrs := answers[0].rrs;
    if !answers[0].dnssec && dnssecOnly {
      rrs := [];
    }
    assert answers[..1][1..] == [];
    for n := 1 to |answers|
      invariant rrs == AdmittedRrs(answers[..n], dnssecOnly)
    {
      AdmittedAppended(answers[..n], answers[n], dnssecOnly);
      assert answers[..n + 1] == answers[..n] + [answers[n]];
      if !answers[n].dnssec && dnssecOnly {
        continue;
      }
      var srv := answers[n].rrs;
      ghost var was := rrs;
      for i := 0 to |srv|
        invariant rrs == was + srv[..i]
      {
        rrs := rrs + [srv[i]];
      }
    }
    assert answers[..|answers|] == answers;
  }

  // ---- The weighted choice -------------------------------------------------

  predicate Sorted(rrs: seq<Rr>) {
    forall i, j :: 0 <= i < j < |rrs| ==> rrs[i].priority <= rrs[j].priority
  }

  /** The length of the first priority group. */
  function GroupLength(rrs: seq<Rr>): (n: nat)
    requires rrs != []
    ensures 1 <= n <= |rrs|
    ensures forall i :: 0 <= i < n ==> rrs[i].priority == rrs[0].priority
    ensures n < |rrs| ==> rrs[n].priority != rrs[0].priority
  {
    GroupFrom(rrs, 1)
  }

  function GroupFrom(rrs: seq<Rr>, i: nat): (n: nat)
    requires 1 <= i <= |rrs|
    requires forall k :: 0 <= k < i ==> rrs[k].priority == rrs[0].priority
    ensures i <= n <= |rrs|
    ensures forall k :: 0 <= k < n ==> rrs[k].priority == rrs[0].priority
    ensures n < |rrs| ==> rrs[n].priority != rrs[0].priority
    decreases |rrs| - i
  {
    if i < |rrs| && rrs[i].priority == rrs[0].priority then GroupFrom(rrs, i + 1) else i
  }

  /** The sum of the first `n` weights. */
  function RunningSum(rrs: seq<Rr>, n: nat): nat
    requires n <= |rrs|
  {
    if n == 0 then 0 else RunningSum(rrs, n - 1) + rrs[n - 1].weight
  }

  lemma {:induction false} RunningSumGrows(rrs: seq<Rr>, m: nat, n: nat)
    requires m <= n <= |rrs|
    ensures RunningSum(rrs, m) <= RunningSum(rrs, n)
    decreases n
  {
    if m < n {
      RunningSumGrows(rrs, m, n - 1);
    }
  }

  /** The running sum including record `i` has reached the draw. */
  predicate Reaches(rrs: seq<Rr>, draw: nat, i: nat)
    requires i < |rrs|
  {
    RunningSum(rrs, i + 1) >= draw
  }

  /** The first record whose running sum reaches the draw; |rrs| if there is none. */
  function Selected(rrs: seq<Rr>, draw: nat, i: nat): (k: nat)
    requires i <= |rrs|
    requires forall j :: 0 <= j < i ==> !Reaches(rrs, draw, j)
    ensures i <= k <= |rrs|
    ensures k < |rrs| ==> Reaches(rrs, draw, k)
    ensures forall j :: 0 <= j < k ==> !Reaches(rrs, draw, j)
    decreases |rrs| - i
  {
    if i == |rrs| || Reaches(rrs, draw, i) then i else Selected(rrs, draw, i + 1)
  }

  /** A draw of at most the group's total weight selects inside the group. */
  lemma SelectedInGroup(rrs: seq<Rr>, draw: nat)
    requires rrs != [] && draw <= RunningSum(rrs, GroupLength(rrs))
    ensures Selected(rrs, draw, 0) < GroupLength(rrs)
  {
    assert Reaches(rrs, draw, GroupLength(rrs) - 1);
  }

  /** The draws that select record `k`. */
  function DrawsFor(rrs: seq<Rr>, k: nat): set<nat>
    requires rrs != []
  {
    set d: nat | d <= RunningSum(rrs, GroupLength(rrs)) && Selected(rrs, d, 0) == k
  }

  function Interval(from: nat, count: nat): (s: set<nat>)
    ensures forall d: nat :: d in s <==> from <= d < from + count
    ensures |s| == count
    decreases count
  {
    if count == 0 then {} else Interval(from, count - 1) + {from + count - 1}
  }

  lemma SelectedExactly(rrs: seq<Rr>, draw: nat, k: nat)
    requires k < |rrs|
    ensures Selected(rrs, draw, 0) == k <==> Reaches(rrs, draw, k) && (k > 0 ==> !Reaches(rrs, draw, k - 1))
  {
    var s := Selected(rrs, draw, 0);
    if s < k {
      RunningSumGrows(rrs, s + 1, k);
    }
  }

  /** The weighted draw is exact: of the total + 1 draws each record of the group is
      selected by as many as its weight, and the first one by one more (the draw 0). */
  lemma DrawsPerRecord(rrs: seq<Rr>, k: nat)
    requires rrs != [] && k < GroupLength(rrs)
    ensures |DrawsFor(rrs, k)| == rrs[k].weight + if k == 0 then 1 else 0
  {
    hide Selected;
    var n := GroupLength(rrs);
    var from := if k == 0 then 0 else RunningSum(rrs, k) + 1;
    var count := rrs[k].weight + if k == 0 then 1 else 0;
    RunningSumGrows(rrs, k + 1, n);
    forall d: nat
      ensures d in DrawsFor(rrs, k) <==> d in Interval(from, count)
    {
      SelectedExactly(rrs, d, k);
    }
    assert DrawsFor(rrs, k) == Interval(from, count);
  }

  // ---- The drain -----------------------------------------------------------

  function Without(rrs: seq<Rr>, k: nat): (r: seq<Rr>)
    requires k < |rrs|
    ensures multiset(r) + multiset{rrs[k]} == multiset(rrs)
    ensures Sorted(rrs) ==> Sorted(r)
  {
    assert rrs == rrs[..k] + [rrs[k]] + rrs[k + 1..];
    var r := rrs[..k] + rrs[k + 1..];
    assert forall i :: 0 <= i < |r| ==> r[i] == rrs[if i < k then i else i + 1];
    r
  }

  /** The record drawn from `rrs` with a total of `total` is yielded, and the rest left. */
  function Pick(rrs: seq<Rr>, draw: nat): (seq<Rr>, seq<Rr>) {
    var i := Selected(rrs, draw, 0);
    if i < |rrs| then ([rrs[i]], Without(rrs, i)) else ([], rrs)
  }

  /** One pass of the outer loop. A group without weight gives up its first record; what is
      drawn next, with a total of 0, is the first record of whatever is left. */
  function Pass(draws: Draws, k: nat, rrs: seq<Rr>): (seq<Rr>, seq<Rr>)
    requires rrs != []
  {
    var total := RunningSum(rrs, GroupLength(rrs));
    var draw := Draw(draws, k, total);
    if total == 0 then
      var (out, rest) := Pick(rrs[1..], draw);
      ([rrs[0]] + out, rest)
    else Pick(rrs, draw)
  }

  lemma DrawOfNothing(rrs: seq<Rr>)
    requires rrs != []
    ensures Pick(rrs, 0) == ([rrs[0]], rrs[1..])
  {
    assert Reaches(rrs, 0, 0);
    assert Selected(rrs, 0, 0) == 0;
    assert rrs[..0] + rrs[1..] == rrs[1..];
  }

  /** The records of `rrs` are in `out` and `rest`, and those in `out` come first. */
  predicate Moved(rrs: seq<Rr>, out: seq<Rr>, rest: seq<Rr>) {
    && multiset(out) + multiset(rest) == multiset(rrs)
    && |out| + |rest| == |rrs|
    && Sorted(rest) && Sorted(out)
    && forall i, j :: 0 <= i < |out| && 0 <= j < |rest| ==> out[i].priority <= rest[j].priority
  }

  lemma FirstMoved(rrs: seq<Rr>, n: nat)
    requires Sorted(rrs) && n <= |rrs|
    ensures Moved(rrs, rrs[..n], rrs[n..])
  {
    assert rrs == rrs[..n] + rrs[n..];
  }

  lemma WithoutIsLater(rrs: seq<Rr>, i: nat)
    requires i < |rrs| && Sorted(rrs)
    ensures |Without(rrs, i)| == |rrs| - 1
    ensures forall r <- Without(rrs, i) :: rrs[0].priority <= r.priority
  {
  }

  lemma {:induction false} PickMoves(rrs: seq<Rr>, draw: nat)
    requires rrs != [] && Sorted(rrs) && draw <= RunningSum(rrs, GroupLength(rrs))
    ensures var (out, rest) := Pick(rrs, draw); |out| == 1 && Moved(rrs, out, rest)
  {
    hide Selected, Without, RunningSum;
    SelectedInGroup(rrs, draw);
    var i := Selected(rrs, draw, 0);
    assert rrs[i].priority == rrs[0].priority;
    WithoutIsLater(rrs, i);
  }

  /** Each pass yields one record or two, moved from what is left, and none of a later
      priority while one of an earlier is left. */
  lemma PassMoves(draws: Draws, k: nat, rrs: seq<Rr>)
    requires rrs != [] && Sorted(rrs)
    ensures var (out, rest) := Pass(draws, k, rrs); 1 <= |out| <= 2 && Moved(rrs, out, rest)
  {
    hide Selected, Moved, Pick;
    var total := RunningSum(rrs, GroupLength(rrs));
    if total == 0 {
      FirstMoved(rrs, 1);
      if |rrs| > 1 {
        FallThroughIgnoresWeights(draws, k, rrs);
        FirstMoved(rrs, 2);
        assert rrs[..2] == [rrs[0], rrs[1]];
      } else {
        assert rrs[..1] == rrs && rrs == [rrs[0]] + [];
        PickFromNothing(Draw(draws, k, total));
      }
    } else {
      PickMoves(rrs, Draw(draws, k, total));
    }
  }

  lemma PickFromNothing(draw: nat)
    ensures Pick([], draw) == ([], [])
  {
  }

  /** After a record of a group without weight the next one is the first of what is left,
      whatever its group and weights and whatever the draw. */
  lemma FallThroughIgnoresWeights(draws: Draws, k: nat, rrs: seq<Rr>)
    requires |rrs| >= 2 && RunningSum(rrs, GroupLength(rrs)) == 0
    ensures Pass(draws, k, rrs) == ([rrs[0], rrs[1]], rrs[2..])
  {
    hide Pick;
    DrawOfNothing(rrs[1..]);
    assert rrs[1..][1..] == rrs[2..];
    assert [rrs[0]] + [rrs[1]] == [rrs[0], rrs[1]];
  }

  /** A pass yields a second record, and so one that no weight was asked about, if and only if
      the first group has no weight and there is a second record. */
  lemma SecondRecordExactly(draws: Draws, k: nat, rrs: seq<Rr>)
    requires rrs != [] && Sorted(rrs)
    ensures |Pass(draws, k, rrs).0| == 2 <==> RunningSum(rrs, GroupLength(rrs)) == 0 && |rrs| >= 2
  {
    hide Pick, Selected;
    var total := RunningSum(rrs, GroupLength(rrs));
    if total == 0 {
      if |rrs| >= 2 {
        FallThroughIgnoresWeights(draws, k, rrs);
      } else {
        assert rrs[1..] == [];
        PickFromNothing(Draw(draws, k, total));
      }
    } else {
      PickMoves(rrs, Draw(draws, k, total));
    }
  }

  /** Behind a record without weight the lightest of the next priority comes first, always. */
  lemma FallThroughHappens(draws: Draws, k: nat, zero: Rr, light: Rr, heavy: Rr)
    requires zero.priority == 1 && zero.weight == 0
    requires light.priority == 2 && light.weight == 1 && heavy.priority == 2 && heavy.weight == 100
    ensures Pass(draws, k, [zero, light, heavy]) == ([zero, light], [heavy])
  {
    hide Pick;
    var rrs := [zero, light, heavy];
    assert GroupLength(rrs) == 1;
    assert RunningSum(rrs, 1) == RunningSum(rrs, 0) + rrs[0].weight;
    FallThroughIgnoresWeights(draws, k, rrs);
    assert rrs[2..] == [heavy];
  }

  /** Of two records of the same weight 1, the first is selected by two draws of three. */
  lemma FirstIsFavoured(a: Rr, b: Rr)
    requires a.priority == b.priority && a.weight == b.weight == 1
    ensures |DrawsFor([a, b], 0)| == 2 && |DrawsFor([a, b], 1)| == 1
  {
    hide Selected;
    assert GroupLength([a, b]) == 2;
    DrawsPerRecord([a, b], 0);
    DrawsPerRecord([a, b], 1);
  }

  /** What is yielded for records sorted by priority. */
  function Drained(draws: Draws, k: nat, rrs: seq<Rr>): (out: seq<Rr>)
    requires Sorted(rrs)
    decreases |rrs|
  {
    if rrs == [] then []
    else
      PassMoves(draws, k, rrs);
      var (out, rest) := Pass(draws, k, rrs);
      out + Drained(draws, k + 1, rest)
  }

  lemma MovedThenSorted(rrs: seq<Rr>, out: seq<Rr>, rest: seq<Rr>, tail: seq<Rr>)
    requires Moved(rrs, out, rest) && multiset(tail) == multiset(rest) && Sorted(tail)
    ensures multiset(out + tail) == multiset(rrs) && Sorted(out + tail)
  {
    forall i, j | 0 <= i < |out| && 0 <= j < |tail|
      ensures out[i].priority <= tail[j].priority
    {
      assert tail[j] in multiset(rest);
    }
  }

  /** For every sequence of draws: exactly the records given, in order of priority. */
  lemma {:induction false} DrainIsSortedPermutation(draws: Draws, k: nat, rrs: seq<Rr>)
    requires Sorted(rrs)
    ensures multiset(Drained(draws, k, rrs)) == multiset(rrs)
    ensures Sorted(Drained(draws, k, rrs))
    decreases |rrs|
  {
    hide Pass;
    if rrs != [] {
      PassMoves(draws, k, rrs);
      var (out, rest) := Pass(draws, k, rrs);
      DrainIsSortedPermutation(draws, k + 1, rest);
      MovedThenSorted(rrs, out, rest, Drained(draws, k + 1, rest));
    }
  }

  // ---- Who comes first -----------------------------------------------------

  /** In a group that has weight the draw decides: the pass yields the record of the group up
      to which the weights first add up to it, and leaves the others in their order. */
  lemma PassByDraw(draws: Draws, k: nat, rrs: seq<Rr>, i: nat)
    requires rrs != [] && i < GroupLength(rrs)
    requires var total := RunningSum(rrs, GroupLength(rrs));
             && 0 < total && draws(k, total) <= total
             && draws(k, total) <= RunningSum(rrs, i + 1) && (i > 0 ==> RunningSum(rrs, i) < draws(k, total))
    ensures Pass(draws, k, rrs) == ([rrs[i]], rrs[..i] + rrs[i + 1..])
  {
    hide Selected;
    var total := RunningSum(rrs, GroupLength(rrs));
    assert Draw(draws, k, total) == draws(k, total);
    SelectedExactly(rrs, draws(k, total), i);
  }

  /** `r` is handed out before all others. */
  predicate Leads(draws: Draws, k: nat, rrs: seq<Rr>, r: Rr)
    requires Sorted(rrs)
  {
    var out := Drained(draws, k, rrs);
    out != [] && out[0] == r
  }

  /** Every draw is one of the group's. */
  lemma {:induction false} DrawFalls(rrs: seq<Rr>, d: nat, n: nat) returns (i: nat)
    requires 0 < n <= |rrs| && d <= RunningSum(rrs, n)
    ensures i < n && d <= RunningSum(rrs, i + 1) && (i > 0 ==> RunningSum(rrs, i) < d)
    decreases n
  {
    if n == 1 || RunningSum(rrs, n - 1) < d {
      i := n - 1;
    } else {
      i := DrawFalls(rrs, d, n - 1);
    }
  }

  predicate Different(rrs: seq<Rr>) {
    forall i, j :: 0 <= i < j < |rrs| ==> rrs[i] != rrs[j]
  }

  /** Whose draw it is comes first of everything handed out. */
  lemma LeadsExactly(draws: Draws, k: nat, rrs: seq<Rr>, i: nat)
    requires rrs != [] && Sorted(rrs) && Different(rrs) && i < |rrs|
    requires var total := RunningSum(rrs, GroupLength(rrs)); 0 < total && draws(k, total) <= total
    ensures var d := draws(k, RunningSum(rrs, GroupLength(rrs)));
            Leads(draws, k, rrs, rrs[i]) <==>
            i < GroupLength(rrs) && d <= RunningSum(rrs, i + 1) && (i > 0 ==> RunningSum(rrs, i) < d)
  {
    hide Pass, RunningSum, GroupLength;
    var d := draws(k, RunningSum(rrs, GroupLength(rrs)));
    var j := DrawFalls(rrs, d, GroupLength(rrs));
    PassByDraw(draws, k, rrs, j);
    if i < j {
      RunningSumGrows(rrs, i + 1, j);
    } else if j < i < GroupLength(rrs) {
      RunningSumGrows(rrs, j + 1, i);
    }
  }

  /** The generator that always gives `d`. */
  function Always(d: nat): Draws {
    (k, total) => d
  }

  /** The draws that put `r` before all others. */
  function LeadingDraws(k: nat, rrs: seq<Rr>, r: Rr): set<nat>
    requires rrs != [] && Sorted(rrs)
  {
    set d: nat | d <= RunningSum(rrs, GroupLength(rrs)) && Leads(Always(d), k, rrs, r)
  }

  /** The weights decide who comes first: of the total + 1 draws as many as its weight put a
      record of the first priority before all others, one more for the first of them, and
      none puts a record of a later priority there. */
  lemma LeadingDrawsAreWeights(k: nat, rrs: seq<Rr>, i: nat)
    requires rrs != [] && Sorted(rrs) && Different(rrs) && i < |rrs| && RunningSum(rrs, GroupLength(rrs)) > 0
    ensures |LeadingDraws(k, rrs, rrs[i])| ==
            if i >= GroupLength(rrs) then 0 else rrs[i].weight + if i == 0 then 1 else 0
  {
    hide Leads, GroupLength, LeadingDraws, RunningSum, Sorted, Different;
    var n := GroupLength(rrs);
    var from := if i == 0 || i >= n then 0 else RunningSum(rrs, i) + 1;
    var count := if i >= n then 0 else rrs[i].weight + if i == 0 then 1 else 0;
    OneMoreWeight(rrs, i);
    if i < n {
      RunningSumGrows(rrs, i + 1, n);
    }
    forall d: nat
      ensures d in LeadingDraws(k, rrs, rrs[i]) <==> d in Interval(from, count)
    {
      LeadingDraw(k, rrs, i, d);
    }
    assert LeadingDraws(k, rrs, rrs[i]) == Interval(from, count);
  }

  lemma OneMoreWeight(rrs: seq<Rr>, i: nat)
    requires i < |rrs|
    ensures RunningSum(rrs, 0) == 0 && RunningSum(rrs, i + 1) == RunningSum(rrs, i) + rrs[i].weight
  {
  }

  lemma LeadingDraw(k: nat, rrs: seq<Rr>, i: nat, d: nat)
    requires rrs != [] && Sorted(rrs) && Different(rrs) && i < |rrs| && RunningSum(rrs, GroupLength(rrs)) > 0
    ensures d in LeadingDraws(k, rrs, rrs[i]) <==>
            && d <= RunningSum(rrs, GroupLength(rrs)) && i < GroupLength(rrs)
            && d <= RunningSum(rrs, i + 1) && (i > 0 ==> RunningSum(rrs, i) < d)
  {
    hide Leads, GroupLength, Sorted, Different;
    if d <= RunningSum(rrs, GroupLength(rrs)) {
      LeadsExactly(Always(d), k, rrs, i);
    }
  }

  /** What comes first depends on nothing but the draw of the first pass. */
  lemma OnlyTheDrawCounts(draws: Draws, k: nat, rrs: seq<Rr>, i: nat)
    requires rrs != [] && Sorted(rrs) && Different(rrs) && i < |rrs|
    requires var total := RunningSum(rrs, GroupLength(rrs)); 0 < total && draws(k, total) <= total
    ensures Leads(draws, k, rrs, rrs[i]) <==>
            draws(k, RunningSum(rrs, GroupLength(rrs))) in LeadingDraws(k, rrs, rrs[i])
  {
    hide Leads;
    LeadsExactly(draws, k, rrs, i);
    LeadsExactly(Always(draws(k, RunningSum(rrs, GroupLength(rrs)))), k, rrs, i);
  }

  /** The inner loop: `weight_sel` counts down from the draw. */
  method PickByCountdown(rrs: seq<Rr>, draw: nat) returns (out: seq<Rr>, rest: seq<Rr>)
    ensures (out, rest) == Pick(rrs, draw)
  {
    var weightSel: int := draw;
    var i := 0;
    while i < |rrs|
      invariant i <= |rrs| && weightSel == draw - RunningSum(rrs, i)
      invariant forall j :: 0 <= j < i ==> !Reaches(rrs, draw, j)
    {
      weightSel := weightSel - rrs[i].weight;
      if weightSel <= 0 {
        assert Reaches(rrs, draw, i);
        return [rrs[i]], Without(rrs, i);
      }
      i := i + 1;
    }
    out, rest := [], rrs;
  }

  /** The body of the outer loop of `srv_lookup`. */
  method OnePass(draws: Draws, k: nat, rrs: seq<Rr>) returns (out: seq<Rr>, rest: seq<Rr>)
    requires rrs != []
    ensures (out, rest) == Pass(draws, k, rrs)
  {
    hide Pick;
    out, rest := [], rrs;
    var total := GroupWeight(rrs);
    if total == 0 {
      out, rest := [rrs[0]], rrs[1..];
    }
    var picked;
    picked, rest := PickByCountdown(rest, Draw(draws, k, total));
    assert [] + picked == picked;
    out := out + picked;
  }

  /** The outer loop: it ends because every pass yields a record. */
  method Drain(draws: Draws, sorted: seq<Rr>) returns (out: seq<Rr>)
    requires Sorted(sorted)
    ensures out == Drained(draws, 0, sorted)
    ensures multiset(out) == multiset(sorted) && Sorted(out)
  {
    hide Pass;
    DrainIsSortedPermutation(draws, 0, sorted);
    var rrs := sorted;
    out := [];
    var k := 0;
    while rrs != []
      invariant Sorted(rrs)
      invariant out + Drained(draws, k, rrs) == Drained(draws, 0, sorted)
      decreases |rrs|
    {
      PassMoves(draws, k, rrs);
      ghost var later := Drained(draws, k + 1, Pass(draws, k, rrs).1);
      var yielded;
      yielded, rrs := OnePass(draws, k, rrs);
      assert out + (yielded + later) == out + yielded + later;
      out := out + yielded;
      k := k + 1;
    }
  }

  /** `weight_total`: the weights of the first priority are added up. */
  method GroupWeight(rrs: seq<Rr>) returns (total: nat)
    requires rrs != []
    ensures total == RunningSum(rrs, GroupLength(rrs))
  {
    var prio := rrs[0].priority;
    total := 0;
    var i := 0;
    while i < |rrs| && rrs[i].priority == prio
      invariant i <= GroupLength(rrs) && total == RunningSum(rrs, i)
    {
      total := total + rrs[i].weight;
      i := i + 1;
    }
  }

  // ---- The whole lookup ----------------------------------------------------

  predicate IsSortOf(sorted: seq<Rr>, rrs: seq<Rr>) {
    multiset(sorted) == multiset(rrs) && Sorted(sorted)
  }

  /** `srv_lookup`, for any outcome of `std::sort`, which may put records of one priority
      in any order: the records of the admitted answers, each once, by priority. */
  method Lookup(answers: seq<Answer>, dnssecOnly: bool, sorted: seq<Rr>, draws: Draws) returns (out: seq<Rr>)
    requires answers != [] && IsSortOf(sorted, AdmittedRrs(answers, dnssecOnly))
    ensures out == Drained(draws, 0, sorted) && Sorted(out)
    ensures forall r :: multiset(out)[r] == Occurrences(answers, dnssecOnly, r)
  {
    forall r {
      AdmittedExactly(answers, dnssecOnly, r);
    }
    var merged := Merge(answers, dnssecOnly);
    out := Drain(draws, sorted);
  }
}
