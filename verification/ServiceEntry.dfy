/** Wildcard configuration look-up: `Service::add` and `Service::entry` of src/service.cpp. */
module ServiceEntry {
  import opened Text

  const DOTS: set<char> := {'.'}

  /** `s` is `domain`, or what stands behind one of its dots. */
  ghost predicate DotSuffix(s: string, domain: string) {
    s == domain || exists k :: 0 <= k < |domain| && BehindDot(s, domain, k)
  }

  predicate BehindDot(s: string, domain: string, k: int)
    requires 0 <= k < |domain|
  {
    domain[k] == '.' && s == domain[k + 1..]
  }

  function Wildcard(s: string): string {
    "*." + s
  }

  /** The wildcard found by dropping labels from the front; the default name without one. */
  function WildcardFor(names: set<string>, domain: string): string
    decreases |domain|
  {
    if Wildcard(domain) in names then Wildcard(domain)
    else
      var dot := FindAnyOf(domain, DOTS, 0);
      if dot.None? then "" else WildcardFor(names, domain[dot.value + 1..])
  }

  /** Whose entry serves `domain`. */
  function Chosen(names: set<string>, domain: string): string {
    if domain in names then domain else WildcardFor(names, domain)
  }

  // ---- What is chosen ------------------------------------------------------

  /** The longest dot-suffix that has a wildcard. */
  ghost predicate MostSpecific(names: set<string>, domain: string, s: string) {
    && DotSuffix(s, domain) && Wildcard(s) in names
    && forall t :: DotSuffix(t, domain) && Wildcard(t) in names ==> |t| <= |s|
  }

  ghost predicate NoWildcard(names: set<string>, domain: string) {
    forall t :: DotSuffix(t, domain) ==> Wildcard(t) !in names
  }

  /** The dot-suffixes are the domain and those of what follows its first dot. */
  lemma ShorterSuffixes(domain: string, s: string)
    ensures var dot := FindAnyOf(domain, DOTS, 0);
            DotSuffix(s, domain) <==> s == domain || (dot.Some? && DotSuffix(s, domain[dot.value + 1..]))
  {
    var dot := FindAnyOf(domain, DOTS, 0);
    if dot.Some? {
      var rest := domain[dot.value + 1..];
      assert BehindDot(rest, domain, dot.value);
      forall k | 0 <= k < |rest|
        ensures BehindDot(s, rest, k) <==> BehindDot(s, domain, dot.value + 1 + k)
      {
        assert rest[k + 1..] == domain[dot.value + 1 + k + 1..];
      }
      forall k | 0 <= k < |domain| && BehindDot(s, domain, k)
        ensures DotSuffix(s, rest)
      {
        if k > dot.value {
          assert BehindDot(s, rest, k - dot.value - 1);
        }
      }
    }
  }

  lemma SuffixesAreShorter(domain: string)
    ensures DotSuffix(domain, domain)
    ensures forall s :: DotSuffix(s, domain) ==> |s| <= |domain|
  {
  }

  lemma {:induction false} WildcardMeaning(names: set<string>, domain: string)
    ensures NoWildcard(names, domain) ==> WildcardFor(names, domain) == ""
    ensures !NoWildcard(names, domain) ==>
              exists s :: MostSpecific(names, domain, s) && WildcardFor(names, domain) == Wildcard(s)
    decreases |domain|
  {
    hide DotSuffix, FindAnyOf, Wildcard;
    WildcardTurn(names, domain);
    forall s
      ensures var dot := FindAnyOf(domain, DOTS, 0);
              DotSuffix(s, domain) <==> s == domain || (dot.Some? && DotSuffix(s, domain[dot.value + 1..]))
    {
      ShorterSuffixes(domain, s);
    }
    if Wildcard(domain) in names {
      SuffixesAreShorter(domain);
      assert MostSpecific(names, domain, domain);
    } else {
      var dot := FindAnyOf(domain, DOTS, 0);
      if dot.Some? {
        var rest := domain[dot.value + 1..];
        WildcardMeaning(names, rest);
        if s :| MostSpecific(names, rest, s) && WildcardFor(names, rest) == Wildcard(s) {
          assert MostSpecific(names, domain, s);
        }
      }
    }
  }

  lemma SuffixesByLength(domain: string, s: string, t: string)
    requires DotSuffix(s, domain) && DotSuffix(t, domain) && |s| == |t|
    ensures s == t
  {
  }

  /** The exact name if it is registered; else the wildcard of the longest dot-suffix that
      has one, the whole domain included; else the default name. */
  lemma ChosenMeaning(names: set<string>, domain: string)
    ensures Chosen(names, domain) == domain <==> domain in names || (domain == "" && NoWildcard(names, domain))
    ensures domain !in names ==>
              forall s :: Chosen(names, domain) == Wildcard(s) <==> MostSpecific(names, domain, s)
    ensures domain !in names ==> (Chosen(names, domain) == "" <==> NoWildcard(names, domain))
  {
    WildcardMeaning(names, domain);
    if domain !in names && !NoWildcard(names, domain) {
      var s :| MostSpecific(names, domain, s) && WildcardFor(names, domain) == Wildcard(s);
      forall t | MostSpecific(names, domain, t)
        ensures t == s
      {
        SuffixesByLength(domain, s, t);
      }
      forall t | Wildcard(t) == Wildcard(s)
        ensures t == s
      {
        assert Wildcard(t)[2..] == t && Wildcard(s)[2..] == s;
      }
    }
  }

  // ---- Many look-ups -------------------------------------------------------

  /** The names after looking up `domains` in turn. */
  function NamesAfter(names: set<string>, domains: seq<string>): set<string>
    decreases |domains|
  {
    if domains == [] then names else NamesAfter(names + {Chosen(names, domains[0])}, domains[1..])
  }

  lemma {:induction false} OnlyTheDefault(names: set<string>, domain: string)
    ensures WildcardFor(names, domain) in names + {""}
    decreases |domain|
  {
    var dot := FindAnyOf(domain, DOTS, 0);
    if Wildcard(domain) !in names && dot.Some? {
      OnlyTheDefault(names, domain[dot.value + 1..]);
    }
  }

  /** However many look-ups: at most the default entry is created, and only once. */
  lemma {:induction false} CreatedAtMostOnce(names: set<string>, domains: seq<string>)
    ensures NamesAfter(names, domains) == names || NamesAfter(names, domains) == names + {""}
    ensures "" in names ==> NamesAfter(names, domains) == names
    decreases |domains|
  {
    if domains != [] {
      OnlyTheDefault(names, domains[0]);
      var created := names + {Chosen(names, domains[0])};
      assert created == names || created == names + {""};
      CreatedAtMostOnce(created, domains[1..]);
    }
  }

  lemma {:induction false} DefaultIsNoWildcard(names: set<string>, domain: string)
    ensures WildcardFor(names + {""}, domain) == WildcardFor(names, domain)
    decreases |domain|
  {
    var dot := FindAnyOf(domain, DOTS, 0);
    if Wildcard(domain) !in names && dot.Some? {
      DefaultIsNoWildcard(names, domain[dot.value + 1..]);
    }
  }

  /** Creating the default entry changes no answer, except that the empty domain moves from
      a wildcard without a domain to the default: that is so if and only if such a wildcard
      is registered and the default was not. */
  lemma AnswersStable(names: set<string>, domain: string)
    ensures Chosen(names + {""}, domain) == Chosen(names, domain) <==>
            !(domain == "" && "" !in names && Wildcard("") in names)
  {
    DefaultIsNoWildcard(names, domain);
  }

  /** Only `*.` is registered: it serves the empty domain until some other look-up has created
      the default. */
  lemma AnswerMoves()
    ensures var names := {"*."};
            && Chosen(names, "") == "*."
            && NamesAfter(names, ["a"]) == names + {""}
            && Chosen(names + {""}, "") == ""
  {
    var names := {"*."};
    assert Wildcard("") == "*." + "" == "*.";
    assert Wildcard("a") == "*.a" && |Wildcard("a")| == 3;
    assert FindAnyOf("a", DOTS, 0).None?;
    WildcardTurn(names, "a");
    assert Chosen(names, "a") == "";
    assert ["a"][1..] == [];
    assert NamesAfter(names, ["a"]) == NamesAfter(names + {""}, []);
    AnswersStable(names, "");
    WildcardTurn(names, "");
  }

  // ---- The registry --------------------------------------------------------

  lemma WildcardTurn(names: set<string>, domain: string)
    ensures var dot := FindAnyOf(domain, DOTS, 0);
            WildcardFor(names, domain) ==
            if Wildcard(domain) in names then Wildcard(domain)
            else if dot.None? then "" else WildcardFor(names, domain[dot.value + 1..])
  {
    hide FindAnyOf, Wildcard;
  }

  class Entry {
    const name: string

    constructor (name: string)
      ensures this.name == name
    {
      this.name := name;
    }
  }

  class Service {
    var entries: map<string, Entry>

    ghost predicate Valid()
      reads this
    {
      forall name <- entries :: entries[name].name == name
    }

    constructor ()
      ensures Valid() && entries == map[]
    {
      entries := map[];
    }

    /** `add`; `None` is the exception for a name that is taken. */
    method Add(name: string) returns (r: Option<Entry>)
      requires Valid()
      modifies this
      ensures Valid()
      ensures name in old(entries) ==> r == None && entries == old(entries)
      ensures name !in old(entries) ==> r.Some? && fresh(r.value) && entries == old(entries)[name := r.value]
    {
      if name in entries {
        return None;
      }
      var e := new Entry(name);
      entries := entries[name := e];
      return Some(e);
    }

    /** `entry` */
    method EntryFor(reqDomain: string) returns (e: Entry)
      requires Valid()
      modifies this
      ensures Valid() && e.name == Chosen(old(entries.Keys), reqDomain)
      ensures e.name in old(entries) ==> entries == old(entries) && e == entries[e.name]
      ensures e.name !in old(entries) ==> fresh(e) && entries == old(entries)[e.name := e] && e.name == ""
    {
      hide WildcardFor, FindAnyOf;
      ghost var names := entries.Keys;
      OnlyTheDefault(names, reqDomain);
      if reqDomain in entries {
        return entries[reqDomain];
      }
      var domain := reqDomain;
      while true
        invariant entries == old(entries)
        invariant WildcardFor(names, domain) == WildcardFor(names, reqDomain)
        decreases |domain|
      {
        WildcardTurn(names, domain);
        if Wildcard(domain) in entries {
          return entries[Wildcard(domain)];
        }
        var dot := FindAnyOf(domain, DOTS, 0);
        if dot.Some? {
          domain := domain[dot.value + 1..];
        } else {
          break;
        }
      }
      if "" in entries {
        return entries[""];
      }
      var added := Add("");
      assert entries[""] == added.value;
      return added.value;
    }
  }
}
