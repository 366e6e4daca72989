/** Path templates: the segment iterator, `compileTemplate` and `matchCompiled` of
    src/http/server.cpp, and the routing of `Endpoint::handler_low` on top of them. */
module PathTemplate {
  import opened Text

  type Variables = map<string, string>

  datatype Segment = Literal(text: string) | Variable(name: string, conv: string)

  const SLASH: set<char> := {'/'}
  const COLON: set<char> := {':'}

  predicate SlashFree(s: string) {
    '/' !in s
  }

  // ---- What the segments of a path are -------------------------------------

  /** `s` cut at every slash: one more part than there are slashes. */
  function Split(s: string): (parts: seq<string>)
    ensures parts != []
    decreases |s|
  {
    var slash := FindAnyOf(s, SLASH, 0);
    if slash.None? then [s] else [s[..slash.value]] + Split(s[slash.value + 1..])
  }

  function Join(parts: seq<string>): string
    requires parts != []
  {
    if |parts| == 1 then parts[0] else parts[0] + "/" + Join(parts[1..])
  }

  /** One leading slash is skipped. */
  function Trimmed(path: string): string {
    if path != "" && path[0] == '/' then path[1..] else path
  }

  function Segments(path: string): (parts: seq<string>)
    ensures parts != []
  {
    Split(Trimmed(path))
  }

  lemma {:induction false} SplitIsSlashFree(s: string)
    ensures forall i :: 0 <= i < |Split(s)| ==> SlashFree(Split(s)[i])
    decreases |s|
  {
    var slash := FindAnyOf(s, SLASH, 0);
    if slash.Some? {
      SplitIsSlashFree(s[slash.value + 1..]);
    }
  }

  lemma {:induction false} JoinOfSplit(s: string)
    ensures Join(Split(s)) == s
    decreases |s|
  {
    var slash := FindAnyOf(s, SLASH, 0);
    if slash.Some? {
      var rest := s[slash.value + 1..];
      JoinOfSplit(rest);
      assert ([s[..slash.value]] + Split(rest))[1..] == Split(rest);
    }
  }

  lemma {:induction false} SplitOfJoin(parts: seq<string>)
    requires parts != [] && forall i :: 0 <= i < |parts| ==> SlashFree(parts[i])
    ensures Split(Join(parts)) == parts
    decreases |parts|
  {
    hide Split;
    if |parts| == 1 {
      SplitOfPart(parts[0]);
    } else {
      SplitOfJoin(parts[1..]);
      SplitFirst(parts[0], Join(parts[1..]));
      assert [parts[0]] + parts[1..] == parts;
    }
  }

  lemma SplitOfPart(part: string)
    requires SlashFree(part)
    ensures Split(part) == [part]
  {
  }

  lemma SplitFirst(part: string, rest: string)
    requires SlashFree(part)
    ensures Split(part + "/" + rest) == [part] + Split(rest)
  {
    var s := part + "/" + rest;
    FoundAt(s, SLASH, 0, |part|);
    assert s[..|part|] == part && s[|part| + 1..] == rest;
  }

  // ---- Templates -----------------------------------------------------------

  /** `{name}`, `{name:conv}`, or text that stands for itself. */
  function SegmentOf(s: string): Segment {
    if |s| >= 2 && s[0] == '{' && s[|s| - 1] == '}' then
      var inside := s[1..|s| - 1];
      var colon := FindAnyOf(inside, COLON, 0);
      if colon.None? then Variable(inside, "str")
      else Variable(inside[..colon.value], inside[colon.value + 1..])
    else Literal(s)
  }

  function SegmentsOf(parts: seq<string>): (segs: seq<Segment>)
    ensures |segs| == |parts|
    ensures forall i :: 0 <= i < |parts| ==> segs[i] == SegmentOf(parts[i])
  {
    seq(|parts|, i requires 0 <= i < |parts| => SegmentOf(parts[i]))
  }

  function Compile(templ: string): (segs: seq<Segment>)
    ensures segs != []
  {
    SegmentsOf(Segments(templ))
  }

  function Written(seg: Segment): string {
    match seg
    case Literal(text) => text
    case Variable(name, conv) => "{" + name + ":" + conv + "}"
  }

  function Texts(segs: seq<Segment>): (parts: seq<string>)
    ensures |parts| == |segs| && forall i :: 0 <= i < |segs| ==> parts[i] == Written(segs[i])
  {
    seq(|segs|, i requires 0 <= i < |segs| => Written(segs[i]))
  }

  /** A segment some template text stands for. */
  predicate Writable(seg: Segment) {
    match seg
    case Literal(text) => SlashFree(text) && !(|text| >= 2 && text[0] == '{' && text[|text| - 1] == '}')
    case Variable(name, conv) => SlashFree(name) && ':' !in name && SlashFree(conv)
  }

  lemma SegmentReadsBack(seg: Segment)
    requires Writable(seg)
    ensures SegmentOf(Written(seg)) == seg && SlashFree(Written(seg))
  {
    if seg.Variable? {
      var s := Written(seg);
      var inside := s[1..|s| - 1];
      assert inside == seg.name + ":" + seg.conv;
      FoundAt(inside, COLON, 0, |seg.name|);
      assert inside[..|seg.name|] == seg.name && inside[|seg.name| + 1..] == seg.conv;
    }
  }

  /** The short form of a variable is the long one with the converter `str`. */
  lemma ShortForm(name: string)
    requires ':' !in name
    ensures SegmentOf("{" + name + "}") == Variable(name, "str") == SegmentOf("{" + name + ":str}")
  {
    var s, t := "{" + name + "}", "{" + name + ":str}";
    assert s[1..|s| - 1] == name;
    var inside := t[1..|t| - 1];
    assert inside == name + ":str";
    FoundAt(inside, COLON, 0, |name|);
    assert inside[..|name|] == name && inside[|name| + 1..] == "str";
  }

  lemma SegmentIsWritable(s: string)
    requires SlashFree(s)
    ensures Writable(SegmentOf(s))
  {
  }

  /** Compiling is onto exactly the templates whose segments are writable, and the text
      written for them compiles back to them. */
  lemma TemplateReadsBack(segs: seq<Segment>)
    requires segs != []
    ensures (forall i :: 0 <= i < |segs| ==> Writable(segs[i])) <==> exists templ :: Compile(templ) == segs
    ensures (forall i :: 0 <= i < |segs| ==> Writable(segs[i])) ==> Compile("/" + Join(Texts(segs))) == segs
  {
    if forall i :: 0 <= i < |segs| ==> Writable(segs[i]) {
      forall i | 0 <= i < |segs|
        ensures SegmentOf(Written(segs[i])) == segs[i] && SlashFree(Written(segs[i]))
      {
        SegmentReadsBack(segs[i]);
      }
      SplitOfJoin(Texts(segs));
      assert ("/" + Join(Texts(segs)))[1..] == Join(Texts(segs));
      assert Compile("/" + Join(Texts(segs))) == segs;
    }
    if templ :| Compile(templ) == segs {
      CompiledIsWritable(templ);
    }
  }

  lemma CompiledIsWritable(templ: string)
    ensures forall i :: 0 <= i < |Compile(templ)| ==> Writable(Compile(templ)[i])
  {
    var parts := Segments(templ);
    SplitIsSlashFree(Trimmed(templ));
    forall i | 0 <= i < |parts|
      ensures Writable(SegmentOf(parts[i]))
    {
      SegmentIsWritable(parts[i]);
    }
  }

  // ---- Matching ------------------------------------------------------------

  predicate FitsPart(seg: Segment, part: string) {
    seg.Literal? ==> seg.text == part
  }

  predicate Fits(segs: seq<Segment>, parts: seq<string>) {
    |segs| == |parts| && forall i :: 0 <= i < |segs| ==> FitsPart(segs[i], parts[i])
  }

  /** What the variables among `segs` stand for; a later one overrides. */
  function Bindings(segs: seq<Segment>, parts: seq<string>): Variables
    requires |segs| == |parts|
  {
    if segs == [] then map[]
    else
      var before := Bindings(segs[..|segs| - 1], parts[..|segs| - 1]);
      var seg := segs[|segs| - 1];
      if seg.Literal? then before else before[seg.name := parts[|segs| - 1]]
  }

  function Match(segs: seq<Segment>, path: string, pre: Variables): Option<Variables> {
    if Fits(segs, Segments(path)) then Some(pre + Bindings(segs, Segments(path))) else None
  }

  predicate BoundAt(segs: seq<Segment>, i: nat, name: string) {
    i < |segs| && segs[i].Variable? && segs[i].name == name
  }

  /** A bound name has the part of its last occurrence. */
  lemma {:induction false} BindingsMeaning(segs: seq<Segment>, parts: seq<string>, name: string)
    requires |segs| == |parts|
    ensures name in Bindings(segs, parts) <==> exists i: nat :: BoundAt(segs, i, name)
    ensures name in Bindings(segs, parts) ==>
              exists i: nat :: BoundAt(segs, i, name) && Bindings(segs, parts)[name] == parts[i] &&
                               forall j: nat :: j > i ==> !BoundAt(segs, j, name)
    decreases |segs|
  {
    if segs != [] {
      var n := |segs| - 1;
      BindingsMeaning(segs[..n], parts[..n], name);
      assert forall i: nat :: i != n ==> (BoundAt(segs, i, name) <==> BoundAt(segs[..n], i, name));
      if BoundAt(segs, n, name) {
        assert Bindings(segs, parts)[name] == parts[n];
      } else {
        assert name in Bindings(segs, parts) <==> name in Bindings(segs[..n], parts[..n]);
      }
    }
  }

  function RenderPart(seg: Segment, vars: Variables): string
    requires seg.Variable? ==> seg.name in vars
  {
    if seg.Literal? then seg.text else vars[seg.name]
  }

  predicate Covers(segs: seq<Segment>, vars: Variables) {
    forall i :: 0 <= i < |segs| && segs[i].Variable? ==> segs[i].name in vars
  }

  function Parts(segs: seq<Segment>, vars: Variables): (parts: seq<string>)
    requires Covers(segs, vars)
    ensures |parts| == |segs| && forall i :: 0 <= i < |segs| ==> parts[i] == RenderPart(segs[i], vars)
  {
    seq(|segs|, i requires 0 <= i < |segs| => RenderPart(segs[i], vars))
  }

  function Render(segs: seq<Segment>, vars: Variables): string
    requires Covers(segs, vars) && segs != []
  {
    Join(Parts(segs, vars))
  }

  /** `vars` on the names that occur in `segs`. */
  ghost function Used(segs: seq<Segment>, vars: Variables): Variables {
    map name | name in vars && exists i: nat :: BoundAt(segs, i, name) :: vars[name]
  }

  predicate SlashFreeValues(segs: seq<Segment>, vars: Variables)
    requires Covers(segs, vars)
  {
    forall i :: 0 <= i < |segs| && segs[i].Variable? ==> SlashFree(vars[segs[i].name])
  }

  lemma RenderedBindings(segs: seq<Segment>, vars: Variables)
    requires Covers(segs, vars)
    ensures Bindings(segs, Parts(segs, vars)) == Used(segs, vars)
  {
    var parts := Parts(segs, vars);
    forall name
      ensures name in Bindings(segs, parts) <==> name in Used(segs, vars)
      ensures name in Bindings(segs, parts) ==> Bindings(segs, parts)[name] == Used(segs, vars)[name]
    {
      BindingsMeaning(segs, parts, name);
    }
  }

  lemma PartsAreSlashFree(templ: string, vars: Variables)
    requires Covers(Compile(templ), vars) && SlashFreeValues(Compile(templ), vars)
    ensures Split(Render(Compile(templ), vars)) == Parts(Compile(templ), vars)
  {
    CompiledIsWritable(templ);
    SplitOfJoin(Parts(Compile(templ), vars));
  }

  /** Matching a rendered path gives back exactly the values it was rendered from. Without
      the leading slash that is so if and only if the rendered path does not itself begin
      with one; then nothing matches. */
  lemma RenderThenMatch(templ: string, vars: Variables, pre: Variables)
    requires Covers(Compile(templ), vars) && SlashFreeValues(Compile(templ), vars)
    ensures var segs := Compile(templ);
            var path := Render(segs, vars);
            && Match(segs, "/" + path, pre) == Some(pre + Used(segs, vars))
            && Match(segs, path, pre) == (if "/" <= path then None else Some(pre + Used(segs, vars)))
  {
    hide Split, Compile, SegmentsOf, Join;
    var segs := Compile(templ);
    var path := Render(segs, vars);
    PartsAreSlashFree(templ, vars);
    RenderedBindings(segs, vars);
    assert ("/" + path)[1..] == path;
    if "/" <= path {
      OneSlashLess(path);
    }
  }

  lemma OneSlashLess(path: string)
    requires "/" <= path
    ensures |Split(path)| == |Split(path[1..])| + 1
  {
    FoundAt(path, SLASH, 0, 0);
  }

  /** Two variables of one name stand for the same part. */
  ghost predicate Agree(segs: seq<Segment>, parts: seq<string>)
    requires |segs| == |parts|
  {
    forall i: nat, j: nat, name :: BoundAt(segs, i, name) && BoundAt(segs, j, name) ==> parts[i] == parts[j]
  }

  /** Any match renders again to the path it came from, up to one leading slash, if and only
      if no name was bound to two different parts. */
  lemma MatchThenRender(segs: seq<Segment>, path: string, pre: Variables)
    requires segs != [] && Match(segs, path, pre).Some?
    ensures Covers(segs, Match(segs, path, pre).value)
    ensures Render(segs, Match(segs, path, pre).value) == Trimmed(path) <==> Agree(segs, Segments(path))
    ensures path == Trimmed(path) || path == "/" + Trimmed(path)
  {
    hide Split, Join, Bindings;
    var vars := Match(segs, path, pre).value;
    var parts := Segments(path);
    forall i | 0 <= i < |segs| && segs[i].Variable?
      ensures segs[i].name in Bindings(segs, parts)
      ensures Agree(segs, parts) ==> vars[segs[i].name] == parts[i]
    {
      assert BoundAt(segs, i, segs[i].name);
      BindingsMeaning(segs, parts, segs[i].name);
    }
    JoinOfSplit(Trimmed(path));
    if Agree(segs, parts) {
      assert Parts(segs, vars) == parts;
    }
    if Render(segs, vars) == Trimmed(path) {
      RenderedPartsAreSlashFree(segs, path, pre);
      SplitOfJoin(Parts(segs, vars));
      assert Parts(segs, vars) == parts;
    }
  }

  lemma RenderedPartsAreSlashFree(segs: seq<Segment>, path: string, pre: Variables)
    requires Match(segs, path, pre).Some? && Covers(segs, Match(segs, path, pre).value)
    ensures forall part <- Parts(segs, Match(segs, path, pre).value) :: SlashFree(part)
  {
    hide Split, Bindings;
    var vars := Match(segs, path, pre).value;
    var parts := Segments(path);
    SplitIsSlashFree(Trimmed(path));
    forall i | 0 <= i < |segs|
      ensures SlashFree(Parts(segs, vars)[i])
    {
      if segs[i].Variable? {
        assert BoundAt(segs, i, segs[i].name);
        BindingsMeaning(segs, parts, segs[i].name);
      } else {
        assert FitsPart(segs[i], parts[i]);
      }
    }
  }

  // ---- The iterator and the loops over it ----------------------------------

  function NextSlash(s: string, from: nat): (r: Option<nat>)
    ensures r.Some? ==> from <= r.value < |s|
  {
    FindAnyOf(s, SLASH, from)
  }

  /** The segments behind the one the iterator stands at. */
  function Behind(s: string, start: nat, end: Option<nat>): seq<string>
    requires start <= |s|
  {
    if end.None? then [] else Split(s[start..])
  }

  class PathSegmentIterator {
    const str: string
    var start: nat
    var end: Option<nat>
    var current: string
    var finished: bool

    ghost predicate Valid()
      reads this
    {
      start <= |str| && (finished ==> end.None?)
    }

    /** The segments from the current one on. */
    ghost function Rest(): seq<string>
      reads this
      requires Valid()
    {
      if finished then [] else [current] + Behind(str, start, end)
    }

    constructor (s: string)
      ensures Valid() && Rest() == Segments(s)
    {
      str, start, end, current, finished := s, 0, Some(0), "", false;
      new;
      if str != "" && str[0] == '/' {
        start := 1;
      }
      Advance();
      assert str[0..] == str;
    }

    predicate Done()
      reads this
    {
      finished
    }

    method Value() returns (value: string)
      requires Valid() && !Done()
      ensures value == Rest()[0]
    {
      value := current;
    }

    method Next()
      requires Valid()
      modifies this
      ensures Valid()
      ensures Rest() == if old(Rest()) == [] then [] else old(Rest())[1..]
    {
      Advance();
    }

    method Advance()
      requires Valid()
      modifies this
      ensures Valid()
      ensures Rest() == if old(end).None? then [] else Split(str[old(start)..])
    {
      if end.None? {
        finished := true;
        return;
      }
      assert !finished;
      hide Split, NextSlash, Behind;
      SplitTail(str, start);
      end := NextSlash(str, start);
      if end.None? {
        current := str[start..];
      } else {
        current := str[start..end.value];
        start := end.value + 1;
      }
    }
  }

  /** Searching from `from` is searching the tail. */
  lemma {:induction false} FoundInTail(s: string, cs: set<char>, from: nat)
    requires from <= |s|
    ensures var here := FindAnyOf(s, cs, from);
            FindAnyOf(s[from..], cs, 0) == if here.None? then None else Some(here.value - from)
  {
    var here := FindAnyOf(s, cs, from);
    if here.Some? {
      assert s[from..][here.value - from] in cs;
      FoundAt(s[from..], cs, 0, here.value - from);
    }
  }

  lemma SplitTail(s: string, from: nat)
    requires from <= |s|
    ensures var slash := NextSlash(s, from);
            Split(s[from..]) == if slash.None? then [s[from..]] + Behind(s, from, slash)
                                else [s[from..slash.value]] + Behind(s, slash.value + 1, slash)
  {
    hide FindAnyOf;
    var slash := FindAnyOf(s, SLASH, from);
    FoundInTail(s, SLASH, from);
    if slash.Some? {
      assert s[from..][..slash.value - from] == s[from..slash.value];
      assert s[from..][slash.value - from + 1..] == s[slash.value + 1..];
    }
  }

  method CompileTemplate(templ: string) returns (segments: seq<Segment>)
    ensures segments == Compile(templ)
  {
    hide Split;
    var it := new PathSegmentIterator(templ);
    segments := [];
    ghost var parts := it.Rest();
    while !it.Done()
      invariant fresh(it) && it.Valid()
      invariant |segments| <= |parts| && it.Rest() == parts[|segments|..]
      invariant forall i :: 0 <= i < |segments| ==> segments[i] == SegmentOf(parts[i])
      decreases |it.Rest()|
    {
      var seg := it.Value();
      var ts: Segment;
      if |seg| >= 2 && seg[0] == '{' && seg[|seg| - 1] == '}' {
        var inside := seg[1..|seg| - 1];
        var colon := FindAnyOf(inside, COLON, 0);
        if colon.None? {
          ts := Variable(inside, "str");
        } else {
          ts := Variable(inside[..colon.value], inside[colon.value + 1..]);
        }
      } else {
        ts := Literal(seg);
      }
      segments := segments + [ts];
      it.Next();
    }
  }

  /** `vars` when it has been filled, else still `pre`. */
  function Filled(vars: Option<Variables>, pre: Variables): Variables {
    if vars.None? then pre else vars.value
  }

  /** The first `i` segments fit, and `vars` holds what they bind. */
  ghost predicate Matched(segs: seq<Segment>, parts: seq<string>, pre: Variables, i: nat, vars: Option<Variables>) {
    && i <= |segs| && i <= |parts|
    && Fits(segs[..i], parts[..i])
    && Filled(vars, pre) == pre + Bindings(segs[..i], parts[..i])
  }

  lemma MatchTurn(segs: seq<Segment>, parts: seq<string>, pre: Variables, i: nat, vars: Option<Variables>)
    requires Matched(segs, parts, pre, i, vars) && i < |segs| && i < |parts|
    ensures if segs[i].Variable? then
              Matched(segs, parts, pre, i + 1, Some(Filled(vars, pre)[segs[i].name := parts[i]]))
            else if segs[i].text == parts[i] then Matched(segs, parts, pre, i + 1, vars)
            else !Fits(segs, parts)
  {
    assert segs[..i + 1][..i] == segs[..i] && parts[..i + 1][..i] == parts[..i];
    if segs[i].Literal? && segs[i].text != parts[i] {
      assert !FitsPart(segs[i], parts[i]);
    }
  }

  lemma MatchEnds(segs: seq<Segment>, path: string, pre: Variables, i: nat, vars: Option<Variables>)
    requires Matched(segs, Segments(path), pre, i, vars)
    requires i == |segs| || i == |Segments(path)|
    ensures Match(segs, path, pre) ==
            if i == |segs| && i == |Segments(path)| then Some(Filled(vars, pre)) else None
  {
    hide Segments, Bindings, FitsPart;
    var parts := Segments(path);
    if i == |segs| && i == |parts| {
      assert segs[..i] == segs && parts[..i] == parts;
    }
  }

  method MatchCompiled(segments: seq<Segment>, path: string, pre: Variables) returns (r: Option<Variables>)
    ensures r == Match(segments, path, pre)
  {
    hide Split, Bindings, Fits, Segments;
    var it := new PathSegmentIterator(path);
    var idx := 0;
    var vars: Option<Variables> := None;
    ghost var parts := it.Rest();
    NothingMatched(segments, parts, pre);
    while !it.Done()
      invariant fresh(it) && it.Valid()
      invariant Matched(segments, parts, pre, idx, vars) && it.Rest() == parts[idx..]
      decreases |it.Rest()|
    {
      if idx >= |segments| {
        MatchEnds(segments, path, pre, idx, vars);
        return None;
      }
      MatchTurn(segments, parts, pre, idx, vars);
      var seg := segments[idx];
      var val := it.Value();
      if seg.Literal? {
        if seg.text != val {
          return None;
        }
      } else {
        if vars.None? {
          vars := Some(pre);
        }
        vars := Some(vars.value[seg.name := val]);
      }
      it.Next();
      idx := idx + 1;
    }
    MatchEnds(segments, path, pre, idx, vars);
    if idx != |segments| {
      return None;
    }
    if vars.None? {
      vars := Some(pre);
    }
    return vars;
  }

  lemma NothingMatched(segs: seq<Segment>, parts: seq<string>, pre: Variables)
    ensures Matched(segs, parts, pre, 0, None)
  {
  }

  // ---- Routing -------------------------------------------------------------

  datatype Endpoint = Endpoint(id: int, middleware: seq<int>, segments: seq<Segment>, children: seq<Endpoint>)

  /** Who handles the request, with which variables; `not_found`; or the exception of a
      middleware. */
  datatype Routed = Handled(id: int, vars: Variables) | NotFound | Refused(middleware: int)

  /** Which middlewares throw for the request. */
  type Throws = int -> bool

  /** The first of `middleware` that throws. */
  function FirstThrowing(throws: Throws, middleware: seq<int>): (r: Option<int>)
    ensures r.None? ==> forall i :: 0 <= i < |middleware| ==> !throws(middleware[i])
    ensures r.Some? ==>
              exists i :: 0 <= i < |middleware| && middleware[i] == r.value && throws(r.value)
                       && forall j :: 0 <= j < i ==> !throws(middleware[j])
  {
    if middleware == [] then None
    else if throws(middleware[0]) then Some(middleware[0])
    else
      var rest := middleware[1..];
      var r := FirstThrowing(throws, rest);
      assert r.Some? ==> forall i :: 0 <= i < |rest| && rest[i] == r.value ==> middleware[i + 1] == r.value;
      r
  }

  /** `Endpoint::handler_low` */
  function Route(throws: Throws, e: Endpoint, path: string, pre: Variables): Routed
    decreases e, 1, 0
  {
    var thrown := FirstThrowing(throws, e.middleware);
    if thrown.Some? then Refused(thrown.value)
    else
      var r := Match(e.segments, path, pre);
      if r.Some? then Handled(e.id, r.value) else RouteFrom(throws, e, path, pre, 0)
  }

  function RouteFrom(throws: Throws, e: Endpoint, path: string, pre: Variables, from: nat): Routed
    decreases e, 0, |e.children| - from
  {
    if from >= |e.children| then NotFound
    else
      var r := Match(e.children[from].segments, path, pre);
      if r.Some? then Route(throws, e.children[from], path, r.value) else RouteFrom(throws, e, path, pre, from + 1)
  }

  /** What an endpoint whose template fits does with the request. */
  function Answer(throws: Throws, e: Endpoint, path: string, pre: Variables): Routed
    requires Fits(e.segments, Segments(path))
  {
    var thrown := FirstThrowing(throws, e.middleware);
    if thrown.Some? then Refused(thrown.value) else Handled(e.id, pre + Bindings(e.segments, Segments(path)))
  }

  /** `i` is the first child whose template fits. */
  predicate FirstChild(e: Endpoint, path: string, i: nat) {
    && i < |e.children| && Fits(e.children[i].segments, Segments(path))
    && forall j :: 0 <= j < i ==> !Fits(e.children[j].segments, Segments(path))
  }

  lemma {:induction false} RouteFromFirst(throws: Throws, e: Endpoint, path: string, pre: Variables, from: nat, i: nat)
    requires FirstChild(e, path, i) && from <= i
    ensures RouteFrom(throws, e, path, pre, from) == Answer(throws, e.children[i], path, pre)
    decreases i - from
  {
    hide FirstThrowing, Segments, Bindings;
    if from < i {
      RouteFromFirst(throws, e, path, pre, from + 1, i);
    } else {
      var bound := Bindings(e.children[i].segments, Segments(path));
      assert pre + bound + bound == pre + bound;
    }
  }

  lemma {:induction false} RouteFromNone(throws: Throws, e: Endpoint, path: string, pre: Variables, from: nat)
    requires forall j :: from <= j < |e.children| ==> !Fits(e.children[j].segments, Segments(path))
    ensures RouteFrom(throws, e, path, pre, from) == NotFound
    decreases |e.children| - from
  {
    if from < |e.children| {
      RouteFromNone(throws, e, path, pre, from + 1);
    }
  }

  /** The endpoint's own middleware comes first and may refuse. Then a request goes to the
      endpoint itself if its template fits, else to the first child whose template fits, with
      that template's bindings and behind that child's middleware; it is not found if there is
      none. What the children of a child look like never matters. */
  lemma RouteMeaning(throws: Throws, e: Endpoint, path: string, pre: Variables)
    ensures FirstThrowing(throws, e.middleware).Some? ==>
              Route(throws, e, path, pre) == Refused(FirstThrowing(throws, e.middleware).value)
    ensures Fits(e.segments, Segments(path)) ==> Route(throws, e, path, pre) == Answer(throws, e, path, pre)
    ensures forall i: nat ::
              && FirstThrowing(throws, e.middleware).None?
              && !Fits(e.segments, Segments(path)) && FirstChild(e, path, i) ==>
                Route(throws, e, path, pre) == Answer(throws, e.children[i], path, pre)
    ensures Route(throws, e, path, pre) == NotFound <==>
            && FirstThrowing(throws, e.middleware).None? && !Fits(e.segments, Segments(path))
            && forall i: nat :: !FirstChild(e, path, i)
  {
    hide FirstThrowing, Segments, Bindings;
    if FirstThrowing(throws, e.middleware).None? && !Fits(e.segments, Segments(path)) {
      forall i: nat | FirstChild(e, path, i)
        ensures Route(throws, e, path, pre) == Answer(throws, e.children[i], path, pre)
      {
        RouteFromFirst(throws, e, path, pre, 0, i);
      }
      if forall i: nat :: !FirstChild(e, path, i) {
        NoneFits(e, path, |e.children|);
        RouteFromNone(throws, e, path, pre, 0);
      }
    }
  }

  lemma {:induction false} NoneFits(e: Endpoint, path: string, n: nat)
    requires n <= |e.children| && forall i: nat :: !FirstChild(e, path, i)
    ensures forall j :: 0 <= j < n ==> !Fits(e.children[j].segments, Segments(path))
  {
    if n > 0 {
      NoneFits(e, path, n - 1);
      assert !FirstChild(e, path, n - 1);
    }
  }

  /** An endpoint for `/b` below one for `/a`: a request for `/b` is not found. */
  lemma DeepChildIsNotFound(throws: Throws)
    ensures var deep := Endpoint(3, [], [Literal("b")], []);
            var e := Endpoint(1, [], [Literal("")], [Endpoint(2, [], [Literal("a")], [deep])]);
            Fits(deep.segments, Segments("/b")) && Route(throws, e, "/b", map[]) == NotFound
  {
    var deep := Endpoint(3, [], [Literal("b")], []);
    var e := Endpoint(1, [], [Literal("")], [Endpoint(2, [], [Literal("a")], [deep])]);
    assert "/b"[1..] == "b";
    SplitOfPart("b");
    hide Segments, Split;
    assert FitsPart(Literal("b"), "b");
    assert !FitsPart(e.segments[0], "b") && !FitsPart(e.children[0].segments[0], "b");
    RouteFromNone(throws, e, "/b", map[], 0);
  }
}
