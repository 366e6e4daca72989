/** The class `Message` of src/http/message.cpp, its fields updated in place. Each
    method takes the view it would shrink and returns what is left of it. */
module HttpParser {
  import opened Text
  import opened HttpMessage

  const NPOS := SIZE_T - 1

  /** `string_view::substr`: the count is clipped to the end. */
  function Substr(s: string, pos: nat, count: nat): string
    requires pos <= |s|
  {
    if count <= |s| - pos then s[pos..pos + count] else s[pos..]
  }

  /** Subtraction of `size_t` values. */
  function SizeSub(a: nat, b: nat): (r: nat)
    requires a < SIZE_T && b <= SIZE_T
  {
    if a >= b then a - b else a + SIZE_T - b
  }

  function PosOf(r: Option<nat>): nat {
    match r
    case Some(i) => i
    case None => NPOS
  }

  /** `read_body`: the message afterwards and the octets it reports as used. */
  function BodyRead(m: Msg, d: string): (Msg, nat)
    requires m.bodyRemaining.Some? && m.bodyRemaining.value < SIZE_T && |d| < SIZE_T
  {
    var remaining := m.bodyRemaining.value;
    if remaining == 0 then (m.(complete := true), 0)
    else (m.(body := m.body + d, bodyRemaining := Some(SizeSub(remaining, |d|)),
             complete := m.complete || |d| == remaining), |d|)
  }

  /** `read_body_chunk_normal` on a chunk that is all there: the message afterwards and the
      octets it reports as used. */
  function ChunkRead(m: Msg, d: string, size: nat): (Msg, nat)
    requires |d| >= size + 2
  {
    (m.(body := m.body + d[..size]), DataUsed(size, d) % UNSIGNED)
  }

  /** The code text and the reason that `process_status` cuts out of everything it was
      offered. */
  function StatusCut(d: string, crlf: nat): (string, string)
    requires crlf <= |d| < NPOS && ' ' in d
  {
    var versionSpace := FindAnyOf(d, {' '}, 0).value;
    var space := PosOf(FindAnyOf(d, {' '}, versionSpace + 1));
    var textStart := if space == NPOS then 0 else space + 1;
    (Substr(d, versionSpace + 1, SizeSub(space, versionSpace + 1)), Substr(d, textStart, SizeSub(crlf, textStart)))
  }

  /** What `process_status` does with `data`. */
  predicate StatusDone(before: Msg, data: string, after: Msg, read: nat, rest: string, threw: bool)
    requires |data| < NPOS
  {
    if FindCrlf(data).None? then read == 0 && rest == data && !threw && after == before
    else if ' ' !in data then read == |data| && rest == data && !threw && after == before.(statusCode := 0)
    else
      var crlf := FindCrlf(data).value;
      var (code, reason) := StatusCut(data, crlf);
      if StoI(code).None? then threw && after == before
      else
        && !threw && read == crlf + 2 && rest == data[crlf + 2..]
        && after == before.(statusCode := StoI(code).value, statusText := reason)
  }

  // ---- Searching the whole view finds what searching the line finds ---------

  lemma FindInLine(s: string, n: nat, cs: set<char>, from: nat)
    requires n <= |s|
    ensures FindAnyOf(s[..n], cs, from) == match FindAnyOf(s, cs, from)
                                           case Some(i) => if i < n then Some(i) else None
                                           case None => None
  {
    var whole, line := FindAnyOf(s, cs, from), FindAnyOf(s[..n], cs, from);
    assert forall k :: 0 <= k < n ==> s[..n][k] == s[k];
  }

  /** Looking for the colon in the whole view finds what looking in the line finds. */
  lemma ColonInView(data: string, crlf: nat)
    requires FindCrlf(data) == Some(crlf)
    ensures var colon := FindAnyOf(data, ENDS, 0);
            && colon.Some? && colon.value <= crlf
            && FindAnyOf(data[..crlf], ENDS, 0) == if colon.value == crlf then None else colon
  {
    FindInLine(data, crlf, ENDS, 0);
    assert data[crlf] in ENDS;
  }

  /** And so it is with the value. */
  lemma {:induction false} FieldInView(data: string, crlf: nat, colon: nat)
    requires FindCrlf(data) == Some(crlf) && crlf > 0 && FindAnyOf(data, ENDS, 0) == Some(colon)
    ensures colon <= crlf
    ensures colon == crlf ==> HeaderLine(data) == NoColon
    ensures colon < crlf ==>
              var ows := FindNoneOf(data, SPACES, colon + 1);
              && ows.Some? && ows.value <= crlf
              && HeaderLine(data) == Field(Lower(data[..colon]), TrimRight(data[ows.value..crlf], SPACES), crlf + 2)
  {
    hide FindAnyOf, FindNoneOf, TrimRight, Lower, ParseField;
    ColonInView(data, crlf);
    if colon < crlf {
      ValueInView(data, crlf, colon + 1);
      assert data[..crlf][..colon] == data[..colon];
      FieldOfLine(data[..crlf], colon, data[FindNoneOf(data, SPACES, colon + 1).value..crlf]);
    } else {
      LineWithoutColon(data[..crlf]);
    }
  }

  lemma FieldOfLine(line: string, colon: nat, value: string)
    requires FindAnyOf(line, ENDS, 0) == Some(colon)
    requires value == match FindNoneOf(line, SPACES, colon + 1)
                      case Some(start) => line[start..]
                      case None => ""
    ensures ParseField(line) == Field(Lower(line[..colon]), TrimRight(value, SPACES), |line| + 2)
  {
    hide FindAnyOf, FindNoneOf, TrimRight, Lower;
  }

  lemma LineWithoutColon(line: string)
    requires FindAnyOf(line, ENDS, 0).None?
    ensures ParseField(line) == NoColon
  {
  }

  lemma ValueInView(data: string, crlf: nat, from: nat)
    requires FindCrlf(data) == Some(crlf) && from <= crlf
    ensures var ows := FindNoneOf(data, SPACES, from);
            && ows.Some? && ows.value <= crlf
            && data[ows.value..crlf] == match FindNoneOf(data[..crlf], SPACES, from)
                                        case Some(start) => data[..crlf][start..]
                                        case None => ""
  {
    assert data[crlf] !in SPACES;
    var line := data[..crlf];
    assert forall k :: 0 <= k < crlf ==> line[k] == data[k];
  }

  lemma StatusInView(data: string, crlf: nat)
    requires FindCrlf(data) == Some(crlf) && SplitStatusLine(data[..crlf]).Some? && |data| < NPOS
    ensures ' ' in data && SplitStatusLine(data[..crlf]) == Some(StatusCut(data, crlf))
  {
    hide FindAnyOf;
    var line := data[..crlf];
    FindInLine(data, crlf, {' '}, 0);
    var v := FindAnyOf(data, {' '}, 0).value;
    FindInLine(data, crlf, {' '}, v + 1);
    var space := FindAnyOf(data, {' '}, v + 1).value;
    assert line[v + 1..space] == data[v + 1..space];
    assert line[space + 1..] == data[space + 1..crlf];
  }

  // ---- What the first unit of a call means for the whole call ----------------

  lemma {:induction false} StatusMeaning(m: Msg, d: string)
    requires WellFormed(m, d) && m.statusCode == -1
    ensures match FindCrlf(d)
            case None => Parse(m, d) == Some(Parsed(m, 0))
            case Some(crlf) =>
              && SplitStatusLine(d[..crlf]).Some?
              && var (code, reason) := SplitStatusLine(d[..crlf]).value;
                 && StoI(code).Some? && StoI(code).value != -1
                 && Parse(m, d) == Behind(crlf + 2,
                           Parse(m.(statusCode := StoI(code).value, statusText := reason), d[crlf + 2..]))
  {
    hide Parse;
    FirstUnit(m, d);
  }

  lemma HeaderMeaning(m: Msg, d: string)
    requires WellFormed(m, d) && m.statusCode != -1 && !m.headerRead
    ensures match HeaderLine(d)
            case Incomplete => Parse(m, d) == Some(Parsed(m, 0))
            case Blank => Parse(m, d) == Behind(2, Parse(m.(headerRead := true), d[2..]))
            case NoColon => false
            case Field(name, value, len) =>
              Parse(m, d) == Behind(len, Parse(m.(header := m.header[name := value]), d[len..]))
  {
    hide Parse;
    FirstUnit(m, d);
  }

  /** What is left of the body fits a `size_t`. */
  predicate Bounded(m: Msg) {
    m.bodyRemaining.Some? ==> m.bodyRemaining.value < SIZE_T
  }

  /** Deciding on the body type changes nothing about what the call will do. */
  lemma CheckedMeaning(m: Msg, d: string)
    requires WellFormed(m, d) && m.statusCode != -1 && m.headerRead
    ensures CheckBodyType(m).Some?
    ensures var m1 := CheckBodyType(m).value;
            && m1 == m.(chunked := m1.chunked, bodyRemaining := m1.bodyRemaining)
            && Parse(m1, d) == Parse(m, d)
            && (Bounded(m) ==> Bounded(m1))
            && (m1.bodyRemaining.None? && !m1.chunked ==> Parse(m, d) == Some(Parsed(m1, 0)))
  {
    hide Parse, ChunkUnit, BodyUnit;
    FirstUnit(m, d);
    var m1 := CheckBodyType(m).value;
    assert CheckBodyType(m1) == Some(m1);
    SameUnitSameParse(m, m1, d);
  }

  lemma BodyMeaning(m: Msg, d: string)
    requires WellFormed(m, d) && Sized(m) && Bounded(m) && |d| < SIZE_T
    ensures Parse(m, d) == Some(Parsed(BodyRead(m, d).0, BodyRead(m, d).1))
    ensures Bounded(BodyRead(m, d).0)
  {
    hide Parse;
    ParseBody(m, d);
    assert m.body + "" == m.body;
  }

  predicate InChunks(m: Msg) {
    m.statusCode != -1 && m.headerRead && m.bodyRemaining.None? && m.chunked
  }

  lemma ChunkMeaning(m: Msg, d: string)
    requires WellFormed(m, d) && InChunks(m)
    ensures UnitAt(m, d) == ChunkUnit(m, d)
    ensures Parse(m, d) == After(ChunkUnit(m, d), d)
  {
    hide Parse, ChunkUnit;
    FirstUnit(m, d);
  }

  /** Where a loop of a call stands: going on from here ends as the whole call does. */
  ghost predicate Heading(m: Msg, read: nat, rest: string, whole: Parsed) {
    read <= whole.used && Parse(m, rest) == Some(Parsed(whole.msg, whole.used - read))
  }

  lemma SizeLineMeaning(m: Msg, d: string)
    requires InChunks(m) && !m.complete && WellFormed(m, d)
    ensures match FindCrlf(d)
            case None => Parse(m, d) == Some(Parsed(m, 0))
            case Some(crlf) =>
              && crlf + 2 <= |d|
              && var size := StoLHex(ChunkSizeText(d[..crlf]));
                 && size.Some? && ToSize(size.value) + 2 < SIZE_T
                 && Parse(m, d) == After(if size.value == 0 then LastChunk(m, crlf + 2, d[crlf + 2..])
                                         else DataChunk(m, crlf + 2, ToSize(size.value), d[crlf + 2..]), d)
  {
    hide LastChunk, DataChunk, Parse;
    ChunkMeaning(m, d);
  }

  lemma LastChunkMeaning(m: Msg, sizeLine: nat, d: string)
    requires sizeLine <= |d| && After(LastChunk(m, sizeLine, d[sizeLine..]), d).Some?
    ensures var block := Trailers(d[sizeLine..]);
            var m1 := m.(header := m.header + block.fields);
            && block.state != Broken
            && After(LastChunk(m, sizeLine, d[sizeLine..]), d) ==
                 if block.state == Open then Some(Parsed(m1, 0))
                 else Behind(sizeLine + block.used, Parse(m1.(complete := true), d[sizeLine + block.used..]))
  {
    hide Parse, Trailers;
  }

  lemma DataChunkMeaning(m: Msg, sizeLine: nat, size: nat, d: string)
    requires sizeLine <= |d| && After(DataChunk(m, sizeLine, size, d[sizeLine..]), d).Some?
    ensures var rest := d[sizeLine..];
            After(DataChunk(m, sizeLine, size, rest), d) ==
              if |rest| < size + 2 then Some(Parsed(m, 0))
              else
                var used := sizeLine + DataUsed(size, rest);
                Behind(used, Parse(m.(body := m.body + rest[..size]), d[used..]))
    ensures |d| - sizeLine >= size + 2 ==> DataUsed(size, d[sizeLine..]) < UNSIGNED
  {
    hide Parse;
  }

  lemma HeadingFits(m: Msg, read: nat, d: string, whole: Parsed)
    requires Heading(m, read, d, whole)
    ensures WellFormed(m, d)
  {
    hide Parse;
  }

  lemma HeadingEnds(m: Msg, read: nat, d: string, whole: Parsed, m1: Msg)
    requires Heading(m, read, d, whole) && Parse(m, d) == Some(Parsed(m1, 0))
    ensures whole == Parsed(m1, read)
  {
    hide Parse;
  }

  lemma {:induction false} HeadingOn(m: Msg, read: nat, d: string, whole: Parsed, used: nat, m1: Msg)
    requires Heading(m, read, d, whole) && used <= |d| && Parse(m, d) == Behind(used, Parse(m1, d[used..]))
    ensures Heading(m1, read + used, d[used..], whole)
  {
    hide Parse;
  }

  /** One turn of the chunk loop that meets a last chunk. */
  lemma {:induction false} LastChunkTurn(m: Msg, read: nat, d: string, whole: Parsed, sizeLine: nat)
    requires Heading(m, read, d, whole) && sizeLine <= |d|
    requires Parse(m, d) == After(LastChunk(m, sizeLine, d[sizeLine..]), d)
    ensures var block := Trailers(d[sizeLine..]);
            var m1 := m.(header := m.header + block.fields);
            && block.state != Broken
            && if block.state == Open then whole == Parsed(m1, read)
               else Heading(m1.(complete := true), read + (sizeLine + block.used), d[sizeLine + block.used..], whole)
  {
    hide Heading, Behind, Parse, Trailers, LastChunk, After;
    HeadingFits(m, read, d, whole);
    LastChunkMeaning(m, sizeLine, d);
    var block := Trailers(d[sizeLine..]);
    var m1 := m.(header := m.header + block.fields);
    if block.state == Open {
      HeadingEnds(m, read, d, whole, m1);
    } else {
      HeadingOn(m, read, d, whole, sizeLine + block.used, m1.(complete := true));
    }
  }

  /** One turn of the chunk loop that meets any other chunk. */
  lemma {:induction false} DataChunkTurn(m: Msg, read: nat, d: string, whole: Parsed, sizeLine: nat, size: nat)
    requires Heading(m, read, d, whole) && sizeLine <= |d|
    requires Parse(m, d) == After(DataChunk(m, sizeLine, size, d[sizeLine..]), d)
    ensures var rest := d[sizeLine..];
            if |rest| < size + 2 then whole == Parsed(m, read)
            else
              var used := sizeLine + DataUsed(size, rest);
              && DataUsed(size, rest) < UNSIGNED && used <= |d|
              && Heading(m.(body := m.body + rest[..size]), read + used, d[used..], whole)
  {
    hide Heading, Behind, Parse, DataChunk, After, CrlfAt;
    HeadingFits(m, read, d, whole);
    DataChunkMeaning(m, sizeLine, size, d);
    var rest := d[sizeLine..];
    if |rest| < size + 2 {
      HeadingEnds(m, read, d, whole, m);
    } else {
      var used := sizeLine + DataUsed(size, rest);
      HeadingOn(m, read, d, whole, used, m.(body := m.body + rest[..size]));
    }
  }

  lemma SizeLineTurn(m: Msg, read: nat, d: string, whole: Parsed)
    requires Heading(m, read, d, whole) && InChunks(m) && !m.complete
    ensures match FindCrlf(d)
            case None => whole == Parsed(m, read)
            case Some(crlf) =>
              && crlf + 2 <= |d|
              && var size := StoLHex(ChunkSizeText(d[..crlf]));
                 && size.Some? && ToSize(size.value) + 2 < SIZE_T
                 && Parse(m, d) == After(if size.value == 0 then LastChunk(m, crlf + 2, d[crlf + 2..])
                                         else DataChunk(m, crlf + 2, ToSize(size.value), d[crlf + 2..]), d)
  {
    hide Heading, Parse, LastChunk, DataChunk, After;
    HeadingFits(m, read, d, whole);
    SizeLineMeaning(m, d);
    if FindCrlf(d).None? {
      HeadingEnds(m, read, d, whole, m);
    }
  }

  lemma SemicolonInLine(data: string, crlf: nat)
    requires FindCrlf(data) == Some(crlf)
    ensures var colon := PosOf(FindAnyOf(data, {';'}, 0));
            |data| < NPOS ==> ChunkSizeText(data[..crlf]) == data[..if colon > crlf then crlf else colon]
  {
    FindInLine(data, crlf, {';'}, 0);
  }

  lemma TailOfTail(s: string, a: nat, b: nat)
    requires a + b <= |s|
    ensures s[a..][b..] == s[a + b..]
  {
  }

  lemma CompleteMeaning(m: Msg, d: string)
    requires InChunks(m) && m.complete
    ensures Parse(m, d) == Some(Parsed(m, 0))
  {
    assert UnitAt(m, d) == Wait(m);
  }

  lemma StartHeads(m: Msg, d: string)
    requires WellFormed(m, d)
    ensures Heading(m, 0, d, Parse(m, d).value)
  {
    hide Parse;
  }

  lemma CompleteHeads(m: Msg, read: nat, d: string, whole: Parsed)
    requires Heading(m, read, d, whole) && InChunks(m) && m.complete
    ensures whole == Parsed(m, read)
  {
    hide Parse;
    CompleteMeaning(m, d);
  }

  lemma BlockStep(d: string)
    ensures var line := HeaderLine(d);
            Trailers(d) == if line.Field? then
                             var rest := Trailers(d[line.len..]);
                             Block(map[line.name := line.value] + rest.fields, line.len + rest.used, rest.state)
                           else if line.Blank? then Block(map[], 2, Closed)
                           else Block(map[], 0, if line.NoColon? then Broken else Open)
  {
  }

  lemma AssignOneThenRest(h: Header, name: string, value: string, rest: Header)
    ensures h[name := value] + rest == h + (map[name := value] + rest)
  {
  }

  class Message {
    var statusCode: int
    var statusText: string
    var header: Header
    var body: string
    var complete: bool
    var headerRead: bool
    var chunked: bool
    var bodyRemaining: Option<nat>

    constructor ()
      ensures State() == FRESH
    {
      statusCode, statusText, header, body := -1, "", map[], "";
      complete, headerRead, chunked, bodyRemaining := false, false, false, None;
    }

    function State(): Msg
      reads this
    {
      Msg(statusCode, statusText, header, body, complete, headerRead, chunked, bodyRemaining)
    }

    /** Without a space anywhere the source sets a status of 0 and reports the whole
        view as used, but shrinks nothing. */
    method ProcessStatus(data: string) returns (read: nat, rest: string, threw: bool)
      requires |data| < NPOS
      modifies this`statusCode, this`statusText
      ensures StatusDone(old(State()), data, State(), read, rest, threw)
    {
      hide StoI, Substr;
      read, rest, threw := 0, data, false;
      var crlf := FindCrlf(data);
      if crlf.None? {
        return;
      }
      var versionSpace := FindAnyOf(data, {' '}, 0);
      if versionSpace.None? {
        statusCode := 0;
        read := |data|;
        return;
      }
      // Trim off the version.
      var space := PosOf(FindAnyOf(data, {' '}, versionSpace.value + 1));
      var code := StoI(Substr(data, versionSpace.value + 1, SizeSub(space, versionSpace.value + 1)));
      if code.None? {
        threw := true;
        return;
      }
      statusCode := code.value;
      var textStart := if space == NPOS then 0 else space + 1;
      statusText := Substr(data, textStart, SizeSub(crlf.value, textStart));
      read := crlf.value + 2;
      rest := data[read..];
    }

    /** What one header line does; a line without a colon reports the whole view as
        used and shrinks nothing. */
    method ProcessHeader(data: string) returns (read: nat, rest: string)
      requires |data| < NPOS
      modifies this`header, this`headerRead
      ensures match HeaderLine(data)
              case Incomplete => read == 0 && rest == data && State() == old(State())
              case Blank => read == 2 && rest == data[2..] && State() == old(State()).(headerRead := true)
              case NoColon => read == |data| > 0 && rest == data && State() == old(State())
              case Field(name, value, len) =>
                && read == len && rest == data[len..]
                && State() == old(State()).(header := old(header)[name := value])
    {
      hide Lower, TrimRight, ParseField;
      read, rest := 0, data;
      var found := FindCrlf(data);
      if found.None? {
        return;
      }
      var crlf := found.value;
      if crlf == 0 {
        read, rest := 2, data[2..];
        headerRead := true;
        return;
      }
      var colon := FindAnyOf(data, ENDS, 0);
      ColonInView(data, crlf);
      FieldInView(data, crlf, colon.value);
      if colon.None? || colon.value == crlf {
        read := |data|;
        return;
      }
      var fieldName := Lower(data[..colon.value]);
      var ows := FindNoneOf(data, SPACES, colon.value + 1);
      var fieldValue := TrimRight(Substr(data, ows.value, SizeSub(crlf, ows.value)), SPACES);
      header := header[fieldName := fieldValue];
      rest := data[crlf + 2..];
      read := crlf + 2;
    }

    method CheckBodyType() returns (threw: bool)
      modifies this`chunked, this`bodyRemaining
      ensures threw == HttpMessage.CheckBodyType(old(State())).None?
      ensures State() == if threw then old(State()) else HttpMessage.CheckBodyType(old(State())).value
    {
      threw := false;
      if bodyRemaining.None? && !chunked {
        if "transfer-encoding" in header {
          if Contains(header["transfer-encoding"], "chunked") {
            chunked := true;
          }
        } else if "content-length" in header {
          var length := StoI(header["content-length"]);
          if length.None? {
            threw := true;
            return;
          }
          bodyRemaining := Some(ToSize(length.value));
        } else {
          bodyRemaining := Some(0);
        }
      }
    }

    /** Everything offered goes into the body, and the count wraps when that is more
        than was left. */
    method ReadBody(data: string) returns (read: nat, rest: string)
      requires bodyRemaining.Some? && bodyRemaining.value < SIZE_T && |data| < SIZE_T
      modifies this`body, this`bodyRemaining, this`complete
      ensures (State(), read) == BodyRead(old(State()), data)
      ensures rest == data[read..]
    {
      read, rest := 0, data;
      if bodyRemaining.value > 0 {
        body := body + data;
        bodyRemaining := Some(SizeSub(bodyRemaining.value, |data|));
        read, rest := |data|, "";
      }
      if bodyRemaining.value == 0 {
        complete := true;
      }
    }

    method ReadBodyChunkHeader(data: string) returns (chunk: nat, size: nat, rest: string, threw: bool)
      requires |data| < NPOS
      ensures FindCrlf(data).None? ==> chunk == 0 && size == 0 && rest == data && !threw
      ensures FindCrlf(data).Some? ==>
                var crlf := FindCrlf(data).value;
                var value := StoLHex(ChunkSizeText(data[..crlf]));
                && threw == value.None?
                && (!threw ==> size == ToSize(value.value) && chunk == crlf + 2 && rest == data[crlf + 2..])
    {
      chunk, size, rest, threw := 0, 0, data, false;
      var found := FindCrlf(data);
      if found.None? {
        return;
      }
      var crlf := found.value;
      var colon := PosOf(FindAnyOf(data, {';'}, 0));
      if colon > crlf {
        colon := crlf;
      }
      SemicolonInLine(data, crlf);
      var value := StoLHex(data[..colon]);
      if value.None? {
        threw := true;
        return;
      }
      size := ToSize(value.value);
      chunk, rest := crlf + 2, data[crlf + 2..];
    }

    /** The count is an `unsigned int`: it wraps at 2^32 whatever was consumed. */
    method ReadBodyChunkNormal(data: string, size: nat) returns (chunk: nat, rest: string)
      requires size + 2 < SIZE_T
      modifies this`body
      ensures if |data| < size + 2 then
                chunk == 0 && rest == data && State() == old(State())
              else
                && (State(), chunk) == ChunkRead(old(State()), data, size)
                && rest == data[DataUsed(size, data)..]
    {
      chunk, rest := 0, data;
      if |data| >= size + 2 {
        body := body + data[..size];
        chunk := (chunk + size) % UNSIGNED;
        rest := data[size..];
        if "\r\n" <= rest {
          rest := rest[2..];
          chunk := (chunk + 2) % UNSIGNED;
        }
        assert ("\r\n" <= data[size..]) == CrlfAt(data, size);
      }
    }

    /** The loop comes to an end only when every complete line has a colon. */
    method ReadBodyChunkFinal(data: string) returns (chunk: nat, rest: string)
      requires |data| < NPOS && Trailers(data).state != Broken && headerRead
      modifies this`header, this`headerRead
      ensures State() == old(State()).(header := old(header) + Trailers(data).fields)
      ensures chunk == if Trailers(data).state == Closed then Trailers(data).used else 0
      ensures chunk != 0 ==> rest == data[chunk..]
    {
      hide Trailers, HeaderLine;
      chunk, rest := 0, data;
      headerRead := false;
      while !headerRead
        invariant State() == old(State()).(header := header, headerRead := headerRead)
        invariant chunk <= |data| && rest == data[chunk..]
        invariant if headerRead then
                    && header == old(header) + Trailers(data).fields
                    && Trailers(data).state == Closed && chunk == Trailers(data).used
                  else
                    && header + Trailers(rest).fields == old(header) + Trailers(data).fields
                    && Trailers(data).state == Trailers(rest).state
                    && Trailers(data).used == chunk + Trailers(rest).used
        decreases if headerRead then 0 else 1, |rest|
      {
        ghost var before := rest;
        ghost var h := header;
        BlockStep(rest);
        var status;
        status, rest := ProcessHeader(rest);
        chunk := chunk + status;
        if status == 0 {
          headerRead := true;
          return 0, rest;
        }
        if HeaderLine(before).Field? {
          AssignOneThenRest(h, HeaderLine(before).name, HeaderLine(before).value, Trailers(rest).fields);
        }
      }
    }

    method ReadBodyChunked(data: string) returns (read: nat, rest: string)
      requires |data| < NPOS && WellFormed(State(), data) && InChunks(State())
      modifies this`header, this`headerRead, this`body, this`complete
      ensures Parse(old(State()), data) == Some(Parsed(State(), read))
    {
      hide Heading, Parse, After, LastChunk, DataChunk, StoLHex, ChunkSizeText, Trailers, CrlfAt;
      read, rest := 0, data;
      ghost var whole := Parse(State(), data).value;
      StartHeads(State(), data);
      while !complete
        invariant Heading(State(), read, rest, whole) && |rest| < NPOS && InChunks(State())
        decreases |rest|, !complete
      {
        SizeLineTurn(State(), read, rest, whole);
        ghost var view := rest;
        var chunk, size, threw;
        chunk, size, rest, threw := ReadBodyChunkHeader(rest);
        if chunk == 0 {
          return;
        }
        if size == 0 {
          LastChunkTurn(State(), read, view, whole, chunk);
          var status;
          status, rest := ReadBodyChunkFinal(rest);
          TailOfTail(view, chunk, status);
          chunk := chunk + status;
          if status == 0 {
            return;
          }
          complete := true;
        } else {
          DataChunkTurn(State(), read, view, whole, chunk, size);
          var status;
          status, rest := ReadBodyChunkNormal(rest, size);
          TailOfTail(view, chunk, status);
          chunk := chunk + status;
          if status == 0 {
            return;
          }
        }
        read := read + chunk;
      }
      CompleteHeads(State(), read, rest, whole);
    }

    /** The beginning of `process`: the status line, unless it was read before; `ends` when
        the call throws, or returns because there is still no status. */
    method ReadStatus(data: string) returns (read: nat, rest: string, threw: bool, ends: bool)
      requires |data| < NPOS
      modifies this`statusCode, this`statusText
      ensures if old(statusCode) == -1 then StatusDone(old(State()), data, State(), read, rest, threw)
              else read == 0 && rest == data && !threw && State() == old(State())
      ensures ends <==> threw || statusCode == -1
    {
      read, rest, threw := 0, data, false;
      if statusCode == -1 {
        read, rest, threw := ProcessStatus(data);
      }
      ends := threw || statusCode == -1;
    }

    /** One call of `process`: the message afterwards and the count returned are those
        of taking units until none is complete. */
    method Process(data: string) returns (read: nat)
      requires |data| < NPOS && WellFormed(State(), data)
      requires Bounded(State())
      modifies this
      ensures Parse(old(State()), data) == Some(Parsed(State(), read))
      ensures Bounded(State())
    {
      hide Parse, HeaderLine, HttpMessage.CheckBodyType, SplitStatusLine, StoI, StatusCut, FindCrlf, UnitAt, BodyRead;
      ghost var whole := Parse(State(), data).value;
      read := 0;
      var rest := data;
      assert data[0..] == data;
      if statusCode == -1 {
        StatusMeaning(State(), data);
        if FindCrlf(data).Some? {
          StatusInView(data, FindCrlf(data).value);
        }
      }
      var threw, ends;
      read, rest, threw, ends := ReadStatus(data);
      if ends {
        return;
      }
      while !headerRead
        invariant Heading(State(), read, rest, whole) && |rest| < NPOS && statusCode != -1
        invariant Bounded(State())
        decreases |rest|, !headerRead
      {
        HeaderMeaning(State(), rest);
        var status;
        status, rest := ProcessHeader(rest);
        read := read + status;
        if status == 0 {
          return;
        }
      }
      CheckedMeaning(State(), rest);
      threw := CheckBodyType();
      if bodyRemaining.Some? {
        BodyMeaning(State(), rest);
        var used;
        used, rest := ReadBody(rest);
        read := read + used;
      } else if chunked {
        var used;
        used, rest := ReadBodyChunked(rest);
        read := read + used;
      }
    }
  }
}
