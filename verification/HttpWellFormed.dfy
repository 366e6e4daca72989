/** Exactly which octets the parser handles: each unit it refuses, told by its text. */
module HttpWellFormed {
  import opened Text
  import opened HttpMessage
  import opened HttpParser
  import opened HttpRender
  import opened HttpLimits
  import opened HttpHeaders

  /** The first line of `d`, complete. */
  predicate FirstLineIs(d: string, line: string) {
    FindCrlf(d) == Some(|line|) && line <= d
  }

  // ---- The status line -----------------------------------------------------

  predicate StatusParts(line: string, version: string, code: string, reason: string) {
    line == version + " " + code + " " + reason && ' ' !in version && ' ' !in code
  }

  ghost predicate GoodStatus(line: string, code: int, reason: string) {
    code != -1 && exists version, text :: StatusParts(line, version, text, reason) && StoI(text) == Some(code)
  }

  /** A status line is read, as a code and a reason, if and only if it is a version, a space, a
      number other than -1, a space and that reason. */
  lemma StatusLineExactly(line: string, code: int, reason: string)
    ensures ParseStatusLine(line) == Some((code, reason)) <==> GoodStatus(line, code, reason)
  {
    hide StoI, SplitStatusLine;
    if SplitStatusLine(line).Some? {
      var version := PartsOf(line);
      var (text, end) := SplitStatusLine(line).value;
      assert StatusParts(line, version, text, end);
    }
    if GoodStatus(line, code, reason) {
      var version, text :| StatusParts(line, version, text, reason) && StoI(text) == Some(code);
      SpacesReadBack(version, text, reason);
    }
  }

  lemma PartsOf(line: string) returns (version: string)
    requires SplitStatusLine(line).Some?
    ensures StatusParts(line, version, SplitStatusLine(line).value.0, SplitStatusLine(line).value.1)
  {
    var first := FindAnyOf(line, {' '}, 0).value;
    var second := FindAnyOf(line, {' '}, first + 1).value;
    version := line[..first];
    assert line == line[..first] + [line[first]] + line[first + 1..second] + [line[second]] + line[second + 1..];
  }

  // ---- Every unit ----------------------------------------------------------

  /** A complete line that cannot be read as a status line. */
  ghost predicate BadStatusLine(d: string) {
    exists line :: FirstLineIs(d, line) && forall code, reason :: !GoodStatus(line, code, reason)
  }

  /** A complete line that is not blank and has no end for a field name. */
  ghost predicate BadHeaderLine(d: string) {
    exists line :: FirstLineIs(d, line) && line != "" && !HasEnd(line)
  }

  /** A length that is no number. */
  predicate BadLength(m: Msg) {
    && Undecided(m) && "transfer-encoding" !in m.header && "content-length" in m.header
    && StoI(m.header["content-length"]).None?
  }

  /** A size that is no number or -1 or -2; a chunk that is there and takes 2^32 octets or more;
      or a last chunk with a bad trailer line. */
  ghost predicate BadSize(size: Option<int>, tail: string) {
    || size.None? || size.value == -1 || size.value == -2
    || (size.value == 0 && exists lines, bad, rest :: BadLineBehind(tail, lines, bad, rest))
    || (size.value != 0 && Octets(size.value) + 2 <= |tail| && Taken(Octets(size.value), tail) >= UNSIGNED)
  }

  /** A size is unsigned. */
  function Octets(size: int): nat {
    size % SIZE_T
  }

  /** The octets of a chunk, and CR LF if that is behind them. */
  function Taken(size: nat, tail: string): nat
    requires size + 2 <= |tail|
  {
    if tail[size] == '\r' && tail[size + 1] == '\n' then size + 2 else size
  }

  ghost predicate BadChunk(d: string) {
    exists line :: FirstLineIs(d, line) && BadSize(StoLHex(ChunkSizeText(line)), d[|line| + 2..])
  }

  lemma TheLine(d: string)
    ensures FindCrlf(d).Some? ==> FirstLineIs(d, d[..FindCrlf(d).value])
    ensures forall line :: FirstLineIs(d, line) ==> FindCrlf(d) == Some(|line|) && line == d[..|line|]
  {
  }

  lemma StatusRefused(m: Msg, d: string)
    ensures StatusUnit(m, d).Malformed? <==> BadStatusLine(d)
  {
    hide ParseStatusLine, GoodStatus;
    TheLine(d);
    if FindCrlf(d).Some? {
      var line := d[..FindCrlf(d).value];
      forall code, reason {
        StatusLineExactly(line, code, reason);
      }
      if ParseStatusLine(line).Some? {
        var (code, reason) := ParseStatusLine(line).value;
        assert GoodStatus(line, code, reason);
      }
    }
  }

  lemma HeaderRefused(m: Msg, d: string)
    ensures HeaderUnit(m, d).Malformed? <==> BadHeaderLine(d)
  {
    hide HasEnd, ParseField;
    TheLine(d);
    if FindCrlf(d).Some? {
      FieldHasEnd(d[..FindCrlf(d).value]);
    }
  }

  lemma BrokenExactly(d: string)
    ensures Trailers(d).state == Broken <==> exists lines, bad, rest :: BadLineBehind(d, lines, bad, rest)
  {
    hide Trailers, BadLineBehind;
    if Trailers(d).state == Broken {
      var lines, bad, rest := BrokenHasBadLine(d);
    }
    if lines, bad, rest :| BadLineBehind(d, lines, bad, rest) {
      BadLineBreaks(d, lines, bad, rest);
    }
  }

  lemma SizeRefused(m: Msg, sizeLine: nat, size: Option<int>, tail: string)
    requires size.Some? ==> -SIZE_T / 2 <= size.value < SIZE_T / 2
    ensures BadSize(size, tail) <==>
            || size.None? || size.value == -1 || size.value == -2
            || if size.value == 0 then LastChunk(m, sizeLine, tail).Malformed?
               else DataChunk(m, sizeLine, ToSize(size.value), tail).Malformed?
  {
    hide Trailers, BadLineBehind;
    BrokenExactly(tail);
  }

  lemma ChunkRefused(m: Msg, d: string)
    ensures ChunkUnit(m, d).Malformed? <==> !m.complete && BadChunk(d)
  {
    hide Trailers, BadLineBehind, StoLHex, ChunkSizeText, FindCrlf;
    TheLine(d);
    if FindCrlf(d).Some? {
      var line, tail := d[..FindCrlf(d).value], d[FindCrlf(d).value + 2..];
      SizeRefused(m, |line| + 2, StoLHex(ChunkSizeText(line)), tail);
    }
  }

  /** A unit is refused if and only if it is one of these, in the phase in which it comes. */
  lemma MalformedExactly(m: Msg, d: string)
    ensures UnitAt(m, d).Malformed? <==>
            if m.statusCode == -1 then BadStatusLine(d)
            else if !m.headerRead then BadHeaderLine(d)
            else if BadLength(m) then true
            else
              var m1 := CheckBodyType(m);
              && m1.Some?
              && if m1.value.bodyRemaining.Some? then 0 < m1.value.bodyRemaining.value < |d|
                 else m1.value.chunked && !m1.value.complete && BadChunk(d)
  {
    hide StatusUnit, HeaderUnit, ChunkUnit, BadStatusLine, BadHeaderLine, BadChunk, StoI;
    StatusRefused(m, d);
    HeaderRefused(m, d);
    if m.statusCode != -1 && m.headerRead && CheckBodyType(m).Some? {
      ChunkRefused(CheckBodyType(m).value, d);
    }
  }
}
