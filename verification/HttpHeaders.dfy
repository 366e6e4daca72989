/** What the header of a message says: names in any case, values trimmed of blanks and tabs, and
    which body it announces. */
module HttpHeaders {
  import opened Text
  import opened HttpMessage
  import opened HttpParser
  import opened HttpRender

  // ---- Names ---------------------------------------------------------------

  /** Two lines whose names differ in the case of letters only are one and the same field. */
  lemma NamesInAnyCase(a: string, b: string, value: string, rest: string)
    requires SameButCase(a, b) && ValidField((a, value)) && ValidField((b, value))
    ensures HeaderLine(FieldLine(a, value) + rest) == HeaderLine(FieldLine(b, value) + rest)
    ensures HeaderLine(FieldLine(a, value) + rest).Field?
  {
    hide FieldLine, HeaderLine;
    FieldReadsBack(a, value, rest);
    FieldReadsBack(b, value, rest);
    LowerIgnoresCase(a, b);
    SameLength(a, b);
    FieldLineLength(a, value);
    FieldLineLength(b, value);
  }

  lemma FieldLineLength(name: string, value: string)
    ensures |FieldLine(name, value)| == |name| + |value| + 4
  {
  }

  predicate LowerKeys(h: Header) {
    forall k <- h :: NoCapital(k)
  }

  lemma LineIsLower(d: string)
    ensures HeaderLine(d).Field? ==> NoCapital(HeaderLine(d).name)
  {
    hide NoCapital, Lower;
    if HeaderLine(d).Field? {
      var line := d[..FindCrlf(d).value];
      LowerHasNoCapital(line[..FindAnyOf(line, ENDS, 0).value]);
    }
  }

  lemma {:induction false} TrailersAreLower(d: string)
    ensures LowerKeys(Trailers(d).fields)
    decreases |d|
  {
    hide HeaderLine, NoCapital;
    BlockStep(d);
    LineIsLower(d);
    if HeaderLine(d).Field? {
      TrailersAreLower(d[HeaderLine(d).len..]);
    }
  }

  lemma UnitIsLower(m: Msg, d: string)
    requires LowerKeys(m.header) && !UnitAt(m, d).Malformed?
    ensures LowerKeys(UnitAt(m, d).msg.header)
  {
    hide HeaderLine, Trailers, NoCapital, ParseStatusLine, ParseChunkSize, Contains, StoI;
    LineIsLower(d);
    if FindCrlf(d).Some? {
      TrailersAreLower(d[FindCrlf(d).value + 2..]);
    }
  }

  /** No name with a capital is ever stored. */
  lemma {:induction false} StoredNamesAreLower(m: Msg, d: string)
    requires LowerKeys(m.header) && WellFormed(m, d)
    ensures LowerKeys(Parse(m, d).value.msg.header)
    decreases |d|
  {
    hide UnitAt, LowerKeys;
    UnitIsLower(m, d);
    var u := UnitAt(m, d);
    if u.Take? {
      StoredNamesAreLower(u.msg, d[u.used..]);
    }
  }

  // ---- Values --------------------------------------------------------------

  /** Blanks and tabs. */
  predicate Padding(s: string) {
    forall i :: 0 <= i < |s| ==> s[i] as int == 32 || s[i] as int == 9
  }

  lemma {:induction false} PaddingIsTrimmed(value: string, after: string)
    requires Padding(after) && (value == "" || value[|value| - 1] !in SPACES)
    ensures TrimRight(value + after, SPACES) == value
    decreases |after|
  {
    if after == "" {
      assert value + after == value;
    } else {
      var n := |value + after| - 1;
      SpacesByCodes(after[|after| - 1]);
      assert (value + after)[..n] == value + after[..|after| - 1];
      PaddingIsTrimmed(value, after[..|after| - 1]);
    }
  }

  /** However a value is padded, it is stored without the padding. */
  lemma PaddedValue(name: string, before: string, value: string, after: string, rest: string)
    requires ValidField((name, value)) && Padding(before) && Padding(after)
    ensures var line := name + ":" + before + value + after;
            HeaderLine(line + CRLF + rest) == Field(Lower(name), value, |line| + 2)
  {
    hide ParseField, Lower, ValidField, Padding, FindCrlf;
    var line := name + ":" + before + value + after;
    var d := line + CRLF + rest;
    LineIsOne(name, before, value, after);
    CrlfAfterLine(line, rest);
    assert d[..|line|] == line;
    PaddedLine(name, before, value, after);
  }

  lemma PaddedLine(name: string, before: string, value: string, after: string)
    requires ValidField((name, value)) && Padding(before) && Padding(after)
    ensures var line := name + ":" + before + value + after;
            ParseField(line) == Field(Lower(name), value, |line| + 2)
  {
    hide ParseField, TrimRight, Lower, FindAnyOf, FindNoneOf, Padding;
    var line := name + ":" + before + value + after;
    assert line == name + ":" + (before + value + after);
    assert line[..|name|] == name;
    ColonFirst(name, before + value + after);
    ValueStart(name, before, value, after);
    FieldOfLine(line, |name|, if value == "" then "" else value + after);
    ValueIsTrimmed(name, value, after);
  }

  lemma ValueIsTrimmed(name: string, value: string, after: string)
    requires ValidField((name, value)) && Padding(after)
    ensures TrimRight(if value == "" then "" else value + after, SPACES) == value
  {
    hide TrimRight, Padding;
    if value == "" {
      NoPadding();
      PaddingIsTrimmed("", "");
      assert "" + "" == "";
    } else {
      PaddingIsTrimmed(value, after);
    }
  }

  lemma NoPadding()
    ensures Padding("")
  {
  }

  lemma LineIsOne(name: string, before: string, value: string, after: string)
    requires ValidField((name, value)) && Padding(before) && Padding(after)
    ensures '\r' !in name + ":" + before + value + after
  {
  }

  lemma ColonFirst(name: string, tail: string)
    requires OneLine(name) && ':' !in name
    ensures FindAnyOf(name + ":" + tail, ENDS, 0) == Some(|name|)
  {
    var line := name + ":" + tail;
    assert forall k :: 0 <= k < |name| ==> line[k] == name[k];
    FoundAt(line, ENDS, 0, |name|);
  }

  lemma ValueStart(name: string, before: string, value: string, after: string)
    requires ValidField((name, value)) && Padding(before) && Padding(after)
    ensures var line := name + ":" + before + value + after;
            (if value == "" then "" else value + after) ==
            match FindNoneOf(line, SPACES, |name| + 1)
            case Some(start) => line[start..]
            case None => ""
  {
    hide FindNoneOf, Padding;
    var line := name + ":" + before + value + after;
    var front := name + ":";
    var start := |front| + |before|;
    assert line == front + before + (value + after);
    assert line[start..] == value + after;
    PaddingStands(front, before, value + after);
    if value != "" {
      StopsAt(line, |front|, start);
    } else {
      assert line == front + before + after + "";
      PaddingStands(front + before, after, "");
      StopsNowhere(line, |front|);
    }
  }

  lemma StopsAt(line: string, from: nat, start: nat)
    requires from <= start < |line| && line[start] !in SPACES
    requires forall k :: from <= k < start ==> line[k] in SPACES
    ensures FindNoneOf(line, SPACES, from) == Some(start)
  {
    hide FindNoneOf;
  }

  lemma StopsNowhere(line: string, from: nat)
    requires forall k :: from <= k < |line| ==> line[k] in SPACES
    ensures FindNoneOf(line, SPACES, from) == None
  {
    hide FindNoneOf;
  }

  lemma PaddingStands(front: string, padding: string, back: string)
    requires Padding(padding)
    ensures forall k :: |front| <= k < |front| + |padding| ==> (front + padding + back)[k] in SPACES
  {
    forall k | |front| <= k < |front| + |padding|
      ensures (front + padding + back)[k] in SPACES
    {
      assert (front + padding + back)[k] == padding[k - |front|];
      SpacesByCodes(padding[k - |front|]);
    }
  }

  // ---- The body announced --------------------------------------------------

  /** A message whose header is read and whose body type is not decided. */
  predicate Undecided(m: Msg) {
    m.statusCode != -1 && m.headerRead && m.bodyRemaining.None? && !m.chunked
  }

  /** "chunked" anywhere in the transfer encoding selects the chunked body, whatever length is
      given; a transfer encoding without it selects none at all, and the message never takes
      anything more; else the length counts, and without one there is no body. */
  lemma BodyAnnounced(m: Msg, d: string)
    requires Undecided(m)
    ensures "transfer-encoding" in m.header ==>
              if exists a, b :: m.header["transfer-encoding"] == a + "chunked" + b then
                CheckBodyType(m) == Some(m.(chunked := true))
              else CheckBodyType(m) == Some(m) && Parse(m, d) == Some(Parsed(m, 0))
    ensures "transfer-encoding" !in m.header && "content-length" in m.header ==>
              var n := StoI(m.header["content-length"]);
              CheckBodyType(m) ==
                if n.None? then None
                else Some(m.(bodyRemaining := Some(if n.value < 0 then n.value + SIZE_T else n.value)))
    ensures "transfer-encoding" !in m.header && "content-length" !in m.header ==>
              CheckBodyType(m) == Some(m.(bodyRemaining := Some(0)))
  {
    hide StoI, Contains;
    if "transfer-encoding" in m.header {
      ContainsMeaning(m.header["transfer-encoding"], "chunked");
      if CheckBodyType(m) == Some(m) {
        NothingAnnounced(m, d);
      }
    }
  }

  lemma NothingAnnounced(m: Msg, d: string)
    requires Undecided(m) && CheckBodyType(m) == Some(m)
    ensures Parse(m, d) == Some(Parsed(m, 0))
  {
    hide CheckBodyType;
  }

  // ---- Trailers seen in part -----------------------------------------------

  /** The trailer fields of a block that is not complete are stored all the same, and nothing
      is consumed. */
  lemma PartialTrailersAreStored(m: Msg, fields: seq<(string, string)>, open: string)
    requires InChunks(m) && !m.complete && ValidFields(fields) && FindCrlf(open).None?
    ensures Parse(m, "0\r\n" + (FieldsText(fields) + open))
         == Some(Parsed(m.(header := m.header + AsMap(Lowered(fields))), 0))
  {
    hide Trailers, UnitAt, Parse, ParseChunkSize, StoI;
    var tail := FieldsText(fields) + open;
    var d := "0\r\n" + tail;
    assert d == "0" + "\r\n" + tail;
    CrlfAfterLine("0", tail);
    assert d[..1] == "0" && d[3..] == tail && "0" + "" == "0";
    ZeroIsZero();
    ItselfInAnyCase("0");
    SizeReadsBack(0, "0", "");
    OpenTrailers(fields, open);
    InChunksUnit(m, d);
    FirstUnit(m, d);
  }

  lemma ZeroIsZero()
    ensures Digits(0, 16) == "0"
  {
    assert DigitChar(0) == '0';
  }

  /** Field lines without the blank line that would close the block. */
  function FieldsText(fields: seq<(string, string)>): string {
    if fields == [] then "" else FieldLine(fields[0].0, fields[0].1) + FieldsText(fields[1..])
  }

  lemma {:induction false} OpenTrailers(fields: seq<(string, string)>, open: string)
    requires ValidFields(fields) && FindCrlf(open).None?
    ensures Trailers(FieldsText(fields) + open).state == Open
    ensures Trailers(FieldsText(fields) + open).fields == AsMap(Lowered(fields))
    decreases |fields|
  {
    hide HeaderLine, Lowered;
    var d := FieldsText(fields) + open;
    BlockStep(d);
    if fields == [] {
      assert d == open;
      NoLine(open);
      LoweredNothing();
    } else {
      var line := FieldLine(fields[0].0, fields[0].1);
      var tail := FieldsText(fields[1..]) + open;
      assert d == line + tail && d[|line|..] == tail;
      FieldReadsBack(fields[0].0, fields[0].1, tail);
      LoweredTail(fields);
      OpenTrailers(fields[1..], open);
    }
  }

  lemma NoLine(open: string)
    requires FindCrlf(open).None?
    ensures HeaderLine(open) == Incomplete
  {
  }

  lemma LoweredNothing()
    ensures AsMap(Lowered([])) == map[]
  {
  }
}
