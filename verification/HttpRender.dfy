/** Writing a response and reading it back: `render_header` of src/http/message.cpp
    and the chunked coding of section 7.1 of RFC 9112, against `process`. */
module HttpRender {
  import opened Text
  import opened HttpMessage
  import opened HttpParser

  const CRLF := "\r\n"

  // ---- Rendering -----------------------------------------------------------

  function StatusLine(version: string, code: nat, reason: string): string {
    version + " " + Digits(code, 10) + " " + reason + CRLF
  }

  function FieldLine(name: string, value: string): string {
    name + ": " + value + CRLF
  }

  /** What `render_header` writes for these fields in this order. */
  function HeaderText(fields: seq<(string, string)>): string {
    if fields == [] then CRLF
    else FieldLine(fields[0].0, fields[0].1) + HeaderText(fields[1..])
  }

  /** The map in which each field has its last value. */
  function AsMap(fields: seq<(string, string)>): Header {
    if fields == [] then map[] else map[fields[0].0 := fields[0].1] + AsMap(fields[1..])
  }

  /** The same fields with their names in lower case, as the parser stores them. */
  function Lowered(fields: seq<(string, string)>): (r: seq<(string, string)>)
    ensures |r| == |fields|
    ensures forall i :: 0 <= i < |fields| ==> r[i] == (Lower(fields[i].0), fields[i].1)
  {
    seq(|fields|, i requires 0 <= i < |fields| => (Lower(fields[i].0), fields[i].1))
  }

  lemma LoweredTail(fields: seq<(string, string)>)
    requires fields != []
    ensures Lowered(fields)[1..] == Lowered(fields[1..])
    ensures AsMap(Lowered(fields)) == map[Lower(fields[0].0) := fields[0].1] + AsMap(Lowered(fields[1..]))
  {
    assert Lowered(fields)[1..] == Lowered(fields[1..]);
  }

  /** Names already in lower case stay as they are. */
  lemma LoweredAlready(fields: seq<(string, string)>)
    requires forall i :: 0 <= i < |fields| ==> NoCapital(fields[i].0)
    ensures Lowered(fields) == fields
  {
    forall i | 0 <= i < |fields|
      ensures Lowered(fields)[i] == fields[i]
    {
      LowerHasNoCapital(fields[i].0);
    }
  }

  /** `size` is the length of `data` in hexadecimal. */
  datatype Chunk = Chunk(size: string, extension: string, data: string)

  function ChunkText(c: Chunk): string {
    c.size + c.extension + CRLF + c.data + CRLF
  }

  function ChunksText(chunks: seq<Chunk>): string {
    if chunks == [] then "" else ChunkText(chunks[0]) + ChunksText(chunks[1..])
  }

  function Joined(chunks: seq<Chunk>): string {
    if chunks == [] then "" else chunks[0].data + Joined(chunks[1..])
  }

  /** chunked-body = *chunk last-chunk trailer-section CRLF */
  function ChunkedBody(chunks: seq<Chunk>, trailers: seq<(string, string)>): string {
    ChunksText(chunks) + (Digits(0, 16) + CRLF + HeaderText(trailers))
  }

  // ---- What can be written -------------------------------------------------

  predicate OneLine(s: string) {
    '\r' !in s && '\n' !in s
  }

  predicate ValidField(field: (string, string)) {
    var (name, value) := field;
    && OneLine(name) && ':' !in name
    && OneLine(value)
    && (value != "" ==> value[0] !in SPACES && value[|value| - 1] !in SPACES)
  }

  predicate ValidFields(fields: seq<(string, string)>) {
    forall f <- fields :: ValidField(f)
  }

  predicate ValidStatus(version: string, code: nat, reason: string) {
    OneLine(version) && ' ' !in version && code <= 0x7FFF_FFFF && OneLine(reason)
  }

  predicate ValidChunk(c: Chunk) {
    && 0 < |c.data| < UNSIGNED - 2
    && SameButCase(Digits(|c.data|, 16), c.size)
    && '\r' !in c.extension
    && (c.extension != "" ==> c.extension[0] == ';')
  }

  /** `keys` are the keys of `header`, each once: an order in which a map can be
      iterated. */
  predicate Lists(keys: seq<string>, header: Header) {
    && (forall k <- keys :: k in header)
    && (forall k <- header.Keys :: k in keys)
    && (forall i, j :: 0 <= i < j < |keys| ==> keys[i] != keys[j])
  }

  function FieldsOf(keys: seq<string>, header: Header): (fields: seq<(string, string)>)
    requires forall k <- keys :: k in header
    ensures |fields| == |keys|
    ensures forall i :: 0 <= i < |keys| ==> fields[i] == (keys[i], header[keys[i]])
  {
    seq(|keys|, i requires 0 <= i < |keys| => (keys[i], header[keys[i]]))
  }

  /** `render_header`; `keys` is the order in which the map is iterated. */
  method RenderHeader(m: Message, keys: seq<string>) returns (h: string)
    requires Lists(keys, m.header)
    ensures h == HeaderText(FieldsOf(keys, m.header))
  {
    h := "";
    ghost var fields := FieldsOf(keys, m.header);
    for i := 0 to |keys|
      invariant h + HeaderText(fields[i..]) == HeaderText(fields)
    {
      assert fields[i..][1..] == fields[i + 1..];
      ghost var rest := HeaderText(fields[i + 1..]);
      assert h + (FieldLine(keys[i], m.header[keys[i]]) + rest) == h + FieldLine(keys[i], m.header[keys[i]]) + rest;
      h := h + (keys[i] + ": " + m.header[keys[i]] + "\r\n");
    }
    assert fields[|keys|..] == [];
    h := h + "\r\n";
  }

  lemma {:induction false} AsMapHolds(fields: seq<(string, string)>, i: nat)
    requires i < |fields|
    requires forall j :: i < j < |fields| ==> fields[j].0 != fields[i].0
    ensures fields[i].0 in AsMap(fields) && AsMap(fields)[fields[i].0] == fields[i].1
  {
    if i == 0 {
      AsMapKeys(fields[1..]);
    } else {
      AsMapHolds(fields[1..], i - 1);
    }
  }

  lemma {:induction false} AsMapKeys(fields: seq<(string, string)>)
    ensures forall k <- AsMap(fields).Keys :: exists j :: 0 <= j < |fields| && fields[j].0 == k
  {
    if fields != [] {
      var rest := fields[1..];
      AsMapKeys(rest);
      forall k <- AsMap(fields).Keys
        ensures exists j :: 0 <= j < |fields| && fields[j].0 == k
      {
        if k != fields[0].0 {
          assert k in AsMap(rest).Keys;
          var j :| 0 <= j < |rest| && rest[j].0 == k;
          assert fields[j + 1].0 == k;
        }
      }
    }
  }

  /** Whatever the order of iteration, the fields written make up the map again. */
  lemma ListedFieldsAreTheMap(keys: seq<string>, header: Header)
    requires Lists(keys, header)
    ensures AsMap(FieldsOf(keys, header)) == header
  {
    hide AsMap, FieldsOf;
    var fields := FieldsOf(keys, header);
    AsMapKeys(fields);
    forall k <- header.Keys
      ensures k in AsMap(fields) && AsMap(fields)[k] == header[k]
    {
      var i :| 0 <= i < |keys| && keys[i] == k;
      AsMapHolds(fields, i);
    }
  }

  // ---- Reading back --------------------------------------------------------

  lemma FieldReadsBack(name: string, value: string, rest: string)
    requires ValidField((name, value))
    ensures HeaderLine(FieldLine(name, value) + rest) == Field(Lower(name), value, |FieldLine(name, value)|)
  {
    hide ParseField, FindAnyOf, FindNoneOf, TrimRight, Lower;
    var line := name + ": " + value;
    var d := FieldLine(name, value) + rest;
    assert d == line + CRLF + rest;
    CrlfAfterLine(line, rest);
    assert d[..|line|] == line;
    ColonReadsBack(name, value);
    assert line[..|name|] == name;
    ValueReadsBack(name, value);
    FieldOfLine(line, |name|, value);
  }

  lemma ColonReadsBack(name: string, value: string)
    requires OneLine(name) && ':' !in name
    ensures FindAnyOf(name + ": " + value, ENDS, 0) == Some(|name|)
  {
    var line := name + ": " + value;
    assert forall k :: 0 <= k < |name| ==> line[k] == name[k];
    FoundAt(line, ENDS, 0, |name|);
  }

  lemma ValueReadsBack(name: string, value: string)
    requires ValidField((name, value))
    ensures var line := name + ": " + value;
            && TrimRight(value, SPACES) == value
            && value == match FindNoneOf(line, SPACES, |name| + 1)
                        case Some(start) => line[start..]
                        case None => ""
  {
    var line := name + ": " + value;
    var start := |name| + 2;
    assert line[start..] == value;
    assert line[start - 1] in SPACES;
    if value != "" {
      assert line[start] == value[0];
      assert FindNoneOf(line, SPACES, |name| + 1) == Some(start);
    }
  }

  lemma {:induction false} TrailersReadBack(fields: seq<(string, string)>, rest: string)
    requires ValidFields(fields)
    ensures Trailers(HeaderText(fields) + rest) == Block(AsMap(Lowered(fields)), |HeaderText(fields)|, Closed)
  {
    var d := HeaderText(fields) + rest;
    if fields == [] {
      assert CrlfAt(d, 0);
    } else {
      var line := FieldLine(fields[0].0, fields[0].1);
      var tail := HeaderText(fields[1..]) + rest;
      assert d == line + tail;
      FieldReadsBack(fields[0].0, fields[0].1, tail);
      assert d[|line|..] == tail;
      LoweredTail(fields);
      TrailersReadBack(fields[1..], rest);
    }
  }

  lemma CodeReadsBack(version: string, code: nat, reason: string)
    requires ValidStatus(version, code, reason)
    ensures ParseStatusLine(version + " " + Digits(code, 10) + " " + reason) == Some((code, reason))
    ensures OneLine(version + " " + Digits(code, 10) + " " + reason)
  {
    hide SplitStatusLine;
    var digits := Digits(code, 10);
    assert forall c <- digits :: IsPlainDigit(c);
    SpacesReadBack(version, digits, reason);
    ReadDigits(code, 10);
  }

  lemma StatusReadsBack(version: string, code: nat, reason: string, rest: string)
    requires ValidStatus(version, code, reason)
    ensures var line := StatusLine(version, code, reason);
            UnitAt(FRESH, line + rest) == Take(FRESH.(statusCode := code, statusText := reason), |line|)
  {
    hide ParseStatusLine;
    var line := version + " " + Digits(code, 10) + " " + reason;
    var d := StatusLine(version, code, reason) + rest;
    assert d == line + CRLF + rest;
    CodeReadsBack(version, code, reason);
    CrlfAfterLine(line, rest);
    assert d[..|line|] == line;
  }

  lemma SpacesReadBack(version: string, digits: string, reason: string)
    requires ' ' !in version && ' ' !in digits
    ensures SplitStatusLine(version + " " + digits + " " + reason) == Some((digits, reason))
  {
    var line := version + " " + digits + " " + reason;
    var first, second := |version|, |version| + 1 + |digits|;
    assert forall k :: 0 <= k < first ==> line[k] == version[k];
    FoundAt(line, {' '}, 0, first);
    assert forall k :: first < k < second ==> line[k] == digits[k - first - 1];
    FoundAt(line, {' '}, first + 1, second);
    assert line[first + 1..second] == digits && line[second + 1..] == reason;
  }

  /** In the header phase: the fields are stored, the blank line ends the phase. */
  lemma {:induction false} HeaderReadsBack(m: Msg, fields: seq<(string, string)>, rest: string)
    requires m.statusCode != -1 && !m.headerRead && ValidFields(fields)
    ensures Parse(m, HeaderText(fields) + rest)
         == Behind(|HeaderText(fields)|,
                   Parse(m.(header := m.header + AsMap(Lowered(fields)), headerRead := true), rest))
    decreases |fields|
  {
    hide Parse, ParseField;
    var d := HeaderText(fields) + rest;
    FirstUnit(m, d);
    if fields == [] {
      assert CrlfAt(d, 0);
      assert d[2..] == rest;
      assert m.header + map[] == m.header;
    } else {
      var (name, value) := fields[0];
      var line := FieldLine(name, value);
      var tail := HeaderText(fields[1..]) + rest;
      assert d == line + tail && d[|line|..] == tail;
      FieldReadsBack(name, value, tail);
      var m1 := m.(header := m.header[Lower(name) := value]);
      LoweredTail(fields);
      HeaderReadsBack(m1, fields[1..], rest);
      AssignOneThenRest(m.header, Lower(name), value, AsMap(Lowered(fields[1..])));
    }
  }

  /** A size written in hexadecimal digits of either case. */
  lemma {:induction false} SizeReadsBack(size: nat, hex: string, extension: string)
    requires size + 2 < UNSIGNED && SameButCase(Digits(size, 16), hex) && (extension != "" ==> extension[0] == ';')
    ensures ParseChunkSize(hex + extension) == Some(size)
    ensures '\r' !in hex
  {
    hide StrToInt, Digits;
    HexIsPlain(size, hex);
    SizeTextReadsBack(hex, extension);
    ReadNumber("", "", "", hex, "", size, 16);
    assert "" + ("" + ("" + (hex + ""))) == hex;
  }

  lemma HexIsPlain(size: nat, hex: string)
    requires SameButCase(Digits(size, 16), hex)
    ensures ';' !in hex && '\r' !in hex
  {
    hide DigitsValue, Digits;
    DigitsIgnoreCase(Digits(size, 16), hex, 16);
    forall i | 0 <= i < |hex|
      ensures hex[i] != ';' && hex[i] != '\r'
    {
      assert IsDigit(hex[i], 16);
    }
  }

  lemma SizeTextReadsBack(hex: string, extension: string)
    requires ';' !in hex && (extension != "" ==> extension[0] == ';')
    ensures ChunkSizeText(hex + extension) == hex
  {
    var line := hex + extension;
    assert forall k :: 0 <= k < |hex| ==> line[k] == hex[k];
    if extension == "" {
      assert line == hex;
      assert forall k :: 0 <= k < |line| ==> line[k] != ';';
    } else {
      FoundAt(line, {';'}, 0, |hex|);
      assert line[..|hex|] == hex;
    }
  }

  lemma {:induction false} ChunkReadsBack(m: Msg, c: Chunk, rest: string)
    requires InChunks(m) && !m.complete && ValidChunk(c)
    ensures Parse(m, ChunkText(c) + rest) == Behind(|ChunkText(c)|, Parse(m.(body := m.body + c.data), rest))
  {
    hide Parse, ParseChunkSize, UnitAt;
    var sizeLine := c.size + c.extension;
    var d := ChunkText(c) + rest;
    var tail := c.data + CRLF + rest;
    SizeReadsBack(|c.data|, c.size, c.extension);
    assert d == sizeLine + CRLF + tail;
    CrlfAfterLine(sizeLine, tail);
    assert d[..|sizeLine|] == sizeLine && d[|sizeLine| + 2..] == tail;
    InChunksUnit(m, d);
    FirstUnit(m, d);
    assert tail[..|c.data|] == c.data && CrlfAt(tail, |c.data|);
    assert d[|ChunkText(c)|..] == rest;
  }

  /** A chunk whose octets are not followed by CR LF is taken all the same, once two more
      octets are there, and the next chunk begins with them. */
  lemma {:induction false} LooseChunkReadsBack(m: Msg, c: Chunk, rest: string)
    requires InChunks(m) && !m.complete && ValidChunk(c) && |rest| >= 2 && !(CRLF <= rest)
    ensures Parse(m, c.size + c.extension + CRLF + c.data + rest)
         == Behind(|c.size + c.extension + CRLF + c.data|, Parse(m.(body := m.body + c.data), rest))
  {
    hide Parse, ChunkUnit, UnitAt, ValidChunk;
    var sizeLine := c.size + c.extension;
    var d := sizeLine + CRLF + (c.data + rest);
    assert c.size + c.extension + CRLF + c.data + rest == d;
    LooseUnit(m, c, rest);
    InChunksUnit(m, d);
    FirstUnit(m, d);
    assert d[|sizeLine| + 2 + |c.data|..] == rest;
  }

  lemma LooseUnit(m: Msg, c: Chunk, rest: string)
    requires InChunks(m) && !m.complete && ValidChunk(c) && |rest| >= 2 && !(CRLF <= rest)
    ensures ChunkUnit(m, c.size + c.extension + CRLF + (c.data + rest))
         == HttpMessage.Take(m.(body := m.body + c.data), |c.size + c.extension| + 2 + |c.data|)
  {
    hide ParseChunkSize;
    var sizeLine := c.size + c.extension;
    var tail := c.data + rest;
    var d := sizeLine + CRLF + tail;
    SizeReadsBack(|c.data|, c.size, c.extension);
    CrlfAfterLine(sizeLine, tail);
    assert d[..|sizeLine|] == sizeLine && d[|sizeLine| + 2..] == tail;
    LooseData(m, |sizeLine| + 2, c.data, rest);
  }

  lemma LooseData(m: Msg, sizeLine: nat, data: string, rest: string)
    requires |data| < UNSIGNED && |rest| >= 2 && !(CRLF <= rest)
    ensures DataChunk(m, sizeLine, |data|, data + rest)
         == HttpMessage.Take(m.(body := m.body + data), sizeLine + |data|)
  {
    var tail := data + rest;
    assert tail[..|data|] == data;
    assert tail[|data|] == rest[0] && tail[|data| + 1] == rest[1];
    assert rest[..2] == [rest[0], rest[1]] && !CrlfAt(tail, |data|);
  }

  lemma InChunksUnit(m: Msg, d: string)
    requires InChunks(m)
    ensures UnitAt(m, d) == ChunkUnit(m, d)
  {
    hide ChunkUnit;
  }

  lemma {:induction false} ChunksReadBack(m: Msg, chunks: seq<Chunk>, rest: string)
    requires InChunks(m) && !m.complete && forall c <- chunks :: ValidChunk(c)
    ensures Parse(m, ChunksText(chunks) + rest)
         == Behind(|ChunksText(chunks)|, Parse(m.(body := m.body + Joined(chunks)), rest))
    decreases |chunks|
  {
    hide Parse;
    if chunks == [] {
      assert m.body + "" == m.body && "" + rest == rest;
      AtLeastNothing(Parse(m, rest));
    } else {
      var tail := ChunksText(chunks[1..]) + rest;
      assert ChunksText(chunks) + rest == ChunkText(chunks[0]) + tail;
      ChunkReadsBack(m, chunks[0], tail);
      ChunksReadBack(m.(body := m.body + chunks[0].data), chunks[1..], rest);
      assert m.body + chunks[0].data + Joined(chunks[1..]) == m.body + Joined(chunks);
    }
  }

  lemma AtLeastNothing(p: Option<Parsed>)
    ensures Behind(0, p) == p
  {
  }

  lemma LastChunkReadsBack(m: Msg, trailers: seq<(string, string)>, rest: string)
    requires InChunks(m) && !m.complete && ValidFields(trailers)
    ensures var last := Digits(0, 16) + CRLF + HeaderText(trailers);
            Parse(m, last + rest) ==
              Some(Parsed(m.(header := m.header + AsMap(Lowered(trailers)), complete := true), |last|))
  {
    hide Parse, ParseChunkSize, UnitAt, Trailers;
    var zero := Digits(0, 16);
    var last := zero + CRLF + HeaderText(trailers);
    var d := last + rest;
    var tail := HeaderText(trailers) + rest;
    assert forall x <- zero :: IsPlainDigit(x);
    assert d == zero + CRLF + tail;
    CrlfAfterLine(zero, tail);
    assert d[..|zero|] == zero && d[|zero| + 2..] == tail;
    assert zero + "" == zero;
    ItselfInAnyCase(zero);
    SizeReadsBack(0, zero, "");
    TrailersReadBack(trailers, rest);
    InChunksUnit(m, d);
    FirstUnit(m, d);
    CompleteMeaning(m.(header := m.header + AsMap(Lowered(trailers)), complete := true), rest);
    assert d[|last|..] == rest;
  }

  // ---- Whole responses -----------------------------------------------------

  predicate SaysChunked(header: Header) {
    "transfer-encoding" in header && Contains(header["transfer-encoding"], "chunked")
  }

  /** The head of a response puts the parser in front of the body. */
  lemma HeadReadsBack(version: string, code: nat, reason: string, fields: seq<(string, string)>, rest: string)
    requires ValidStatus(version, code, reason) && ValidFields(fields)
    ensures var head := StatusLine(version, code, reason) + HeaderText(fields);
            Parse(FRESH, head + rest) ==
              Behind(|head|, Parse(Msg(code, reason, AsMap(Lowered(fields)), "", false, true, false, None), rest))
  {
    hide Parse, StatusLine, HeaderText, UnitAt;
    var line := StatusLine(version, code, reason);
    var d := line + HeaderText(fields) + rest;
    var tail := HeaderText(fields) + rest;
    assert d == line + tail && d[|line|..] == tail;
    StatusReadsBack(version, code, reason, tail);
    FirstUnit(FRESH, d);
    HeaderReadsBack(FRESH.(statusCode := code, statusText := reason), fields, rest);
    assert map[] + AsMap(Lowered(fields)) == AsMap(Lowered(fields));
  }

  function ChunkedResponse(version: string, code: nat, reason: string, fields: seq<(string, string)>,
                           chunks: seq<Chunk>, trailers: seq<(string, string)>): string {
    StatusLine(version, code, reason) + HeaderText(fields) + ChunkedBody(chunks, trailers)
  }

  /** Reading a chunked response restores status, header and body, is complete, and
      leaves whatever follows the message. */
  lemma ChunkedResponseReadsBack(version: string, code: nat, reason: string, fields: seq<(string, string)>,
                                 chunks: seq<Chunk>, trailers: seq<(string, string)>, after: string)
    requires ValidStatus(version, code, reason) && ValidFields(fields) && ValidFields(trailers)
    requires SaysChunked(AsMap(Lowered(fields))) && forall c <- chunks :: ValidChunk(c)
    ensures var text := ChunkedResponse(version, code, reason, fields, chunks, trailers);
            Parse(FRESH, text + after) ==
              Some(Parsed(Msg(code, reason, AsMap(Lowered(fields)) + AsMap(Lowered(trailers)), Joined(chunks),
                              true, true, true, None),
                          |text|))
  {
    hide Parse, StatusLine, HeaderText, ChunksText, Contains;
    var head := StatusLine(version, code, reason) + HeaderText(fields);
    var last := Digits(0, 16) + CRLF + HeaderText(trailers);
    var rest := ChunkedBody(chunks, trailers) + after;
    var text := ChunkedResponse(version, code, reason, fields, chunks, trailers);
    assert text + after == head + rest;
    HeadReadsBack(version, code, reason, fields, rest);
    var m := Msg(code, reason, AsMap(Lowered(fields)), "", false, true, false, None);
    ChunkedCheck(m, rest);
    var m1 := m.(chunked := true);
    assert rest == ChunksText(chunks) + (last + after);
    ChunksReadBack(m1, chunks, last + after);
    assert "" + Joined(chunks) == Joined(chunks);
    LastChunkReadsBack(m1.(body := Joined(chunks)), trailers, after);
  }

  lemma {:induction false} ChunkedCheck(m: Msg, d: string)
    requires m.statusCode != -1 && m.headerRead && m.bodyRemaining.None? && SaysChunked(m.header)
    ensures Parse(m, d) == Parse(m.(chunked := true), d)
  {
    hide Parse, Contains, ChunkUnit;
    SameUnitSameParse(m, m.(chunked := true), d);
  }

  function SizedResponse(version: string, code: nat, reason: string, fields: seq<(string, string)>,
                         body: string): string {
    StatusLine(version, code, reason) + HeaderText(fields) + body
  }

  predicate SaysLength(header: Header, n: nat) {
    && "transfer-encoding" !in header
    && (if "content-length" in header then header["content-length"] == Digits(n, 10) else n == 0)
    && n <= 0x7FFF_FFFF
  }

  /** The same for a body with a Content-Length; what follows the message is left
      alone only when the body is empty, so nothing may follow otherwise. */
  lemma SizedResponseReadsBack(version: string, code: nat, reason: string, fields: seq<(string, string)>,
                               body: string, after: string)
    requires ValidStatus(version, code, reason) && ValidFields(fields)
    requires SaysLength(AsMap(Lowered(fields)), |body|) && (body != "" ==> after == "")
    ensures var text := SizedResponse(version, code, reason, fields, body);
            Parse(FRESH, text + after) ==
              Some(Parsed(Msg(code, reason, AsMap(Lowered(fields)), body, true, true, false, Some(0)), |text|))
  {
    hide Parse, StatusLine, HeaderText;
    var text := SizedResponse(version, code, reason, fields, body);
    assert text + after == StatusLine(version, code, reason) + HeaderText(fields) + (body + after);
    HeadReadsBack(version, code, reason, fields, body + after);
    var m := Msg(code, reason, AsMap(Lowered(fields)), "", false, true, false, None);
    SizedCheck(m, |body|, body + after);
    ParseBody(m.(bodyRemaining := Some(|body|)), body + after);
    assert "" + body == body && body + "" == body;
  }

  lemma SizedCheck(m: Msg, n: nat, d: string)
    requires m.statusCode != -1 && m.headerRead && m.bodyRemaining.None? && !m.chunked && SaysLength(m.header, n)
    ensures Parse(m, d) == Parse(m.(bodyRemaining := Some(n)), d)
  {
    hide Parse, BodyUnit;
    ReadDigits(n, 10);
    SameUnitSameParse(m, m.(bodyRemaining := Some(n)), d);
  }

  /** `render_header` as text: name, colon, blank, value, CR LF for each field, then CR LF. */
  lemma HeaderTextMeaning(fields: seq<(string, string)>, field: (string, string))
    ensures HeaderText([]) == "\r\n"
    ensures HeaderText([field] + fields) == field.0 + ": " + field.1 + "\r\n" + HeaderText(fields)
  {
    assert ([field] + fields)[1..] == fields;
  }

  /** What `render_header` writes for a map without capitals in its names is that map when it
      is read back. */
  lemma RenderedHeaderIsBack(keys: seq<string>, header: Header)
    requires Lists(keys, header) && forall k <- keys :: NoCapital(k)
    ensures AsMap(Lowered(FieldsOf(keys, header))) == header
  {
    LoweredAlready(FieldsOf(keys, header));
    ListedFieldsAreTheMap(keys, header);
  }
}
