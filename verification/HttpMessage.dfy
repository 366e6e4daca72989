/** What `Message::process` in src/http/message.cpp does to a message, one whole
    unit at a time: a status line, a header line, a body piece, a chunk, or the
    last chunk with its trailer block. */
module HttpMessage {
  import opened Text

  type Header = map<string, string>

  const SIZE_T := 0x1_0000_0000_0000_0000
  const UNSIGNED := 0x1_0000_0000

  datatype Msg = Msg(
    statusCode: int,
    statusText: string,
    header: Header,
    body: string,
    complete: bool,
    headerRead: bool,
    chunked: bool,
    bodyRemaining: Option<nat>)

  /** A default-constructed message. */
  const FRESH := Msg(-1, "", map[], "", false, false, false, None)

  // ---- Lines ---------------------------------------------------------------

  datatype Line = Incomplete | Blank | NoColon | Field(name: string, value: string, len: nat)

  /** What a field name ends at. */
  const ENDS: set<char> := {':', '\r', '\n'}

  /** A field line without its CR LF. The name ends at the first ':' (or at a
      stray CR or LF, which the source accepts too). */
  function ParseField(line: string): (r: Line)
    ensures r.NoColon? || (r.Field? && r.len == |line| + 2)
  {
    match FindAnyOf(line, ENDS, 0)
    case None => NoColon
    case Some(colon) =>
      var value := match FindNoneOf(line, SPACES, colon + 1)
                   case Some(start) => line[start..]
                   case None => "";
      Field(Lower(line[..colon]), TrimRight(value, SPACES), |line| + 2)
  }

  function HeaderLine(d: string): (r: Line)
    ensures r.Field? ==> 2 <= r.len <= |d|
    ensures r.Blank? ==> 2 <= |d|
  {
    match FindCrlf(d)
    case None => Incomplete
    case Some(crlf) => if crlf == 0 then Blank else ParseField(d[..crlf])
  }

  /** The second and third part of "version SP code SP reason". */
  function SplitStatusLine(line: string): Option<(string, string)>
  {
    match FindAnyOf(line, {' '}, 0)
    case None => None
    case Some(versionEnd) =>
      match FindAnyOf(line, {' '}, versionEnd + 1)
      case None => None
      case Some(codeEnd) => Some((line[versionEnd + 1..codeEnd], line[codeEnd + 1..]))
  }

  /** `None` when a space is missing, when the code is not a number `stoi` accepts,
      or when it is -1, the source's "not read yet". */
  function ParseStatusLine(line: string): (r: Option<(int, string)>)
    ensures r.Some? ==> r.value.0 != -1
  {
    match SplitStatusLine(line)
    case None => None
    case Some((codeText, reason)) =>
      match StoI(codeText)
      case None => None
      case Some(code) => if code == -1 then None else Some((code, reason))
  }

  /** A signed number converted to `size_t`. */
  function ToSize(n: int): (r: nat)
    requires -SIZE_T <= n
  {
    if n < 0 then n + SIZE_T else n
  }

  /** The size in a chunk header line, up to an extension. `None` when `stol` throws, and for
      -1 and -2, which make size + 2 wrap. */
  function ParseChunkSize(line: string): Option<nat> {
    match StoLHex(ChunkSizeText(line))
    case None => None
    case Some(size) => if size == -1 || size == -2 then None else Some(ToSize(size))
  }

  function ChunkSizeText(line: string): string {
    match FindAnyOf(line, {';'}, 0)
    case Some(semicolon) => line[..semicolon]
    case None => line
  }

  // ---- The trailer block ---------------------------------------------------

  datatype BlockState = Open | Closed | Broken

  /** The field lines at the start of `d` up to the blank line, as one map in which
      a later line overrides an earlier one. */
  datatype Block = Block(fields: Header, used: nat, state: BlockState)

  function Trailers(d: string): (r: Block)
    ensures r.used <= |d|
    ensures r.state == Closed ==> 2 <= r.used
    decreases |d|
  {
    match HeaderLine(d)
    case Incomplete => Block(map[], 0, Open)
    case Blank => Block(map[], 2, Closed)
    case NoColon => Block(map[], 0, Broken)
    case Field(name, value, len) =>
      var rest := Trailers(d[len..]);
      Block(map[name := value] + rest.fields, len + rest.used, rest.state)
  }

  // ---- One unit ------------------------------------------------------------

  datatype Unit =
    | Wait(msg: Msg)              // nothing consumed, more octets are needed (or none ever)
    | Take(msg: Msg, used: nat)   // one unit consumed, go on behind it
    | Malformed                   // outside what this parser handles

  function StatusUnit(m: Msg, d: string): (u: Unit)
    ensures u.Take? ==> 0 < u.used <= |d|
  {
    match FindCrlf(d)
    case None => Wait(m)
    case Some(crlf) =>
      match ParseStatusLine(d[..crlf])
      case None => Malformed
      case Some((code, text)) => Take(m.(statusCode := code, statusText := text), crlf + 2)
  }

  function HeaderUnit(m: Msg, d: string): (u: Unit)
    ensures u.Take? ==> 0 < u.used <= |d|
  {
    match HeaderLine(d)
    case Incomplete => Wait(m)
    case Blank => Take(m.(headerRead := true), 2)
    case NoColon => Malformed
    case Field(name, value, len) => Take(m.(header := m.header[name := value]), len)
  }

  /** `check_body_type`: `None` when `stoi` throws on the content length. */
  function CheckBodyType(m: Msg): Option<Msg> {
    if m.bodyRemaining.Some? || m.chunked then Some(m)
    else if "transfer-encoding" in m.header then
      Some(if Contains(m.header["transfer-encoding"], "chunked") then m.(chunked := true) else m)
    else if "content-length" in m.header then
      match StoI(m.header["content-length"])
      case None => None
      case Some(n) => Some(m.(bodyRemaining := Some(ToSize(n))))
    else Some(m.(bodyRemaining := Some(0)))
  }

  function BodyUnit(m: Msg, remaining: nat, d: string): (u: Unit)
    ensures u.Take? ==> 0 < u.used <= |d|
  {
    if remaining == 0 then Wait(m.(complete := true))
    else if d == "" then Wait(m)
    else if |d| > remaining then Malformed
    else
      var left: nat := remaining - |d|;
      Take(m.(body := m.body + d, bodyRemaining := Some(left), complete := m.complete || left == 0), |d|)
  }

  function ChunkUnit(m: Msg, d: string): (u: Unit)
    ensures u.Take? ==> 0 < u.used <= |d|
  {
    if m.complete then Wait(m) else
    match FindCrlf(d)
    case None => Wait(m)
    case Some(crlf) =>
      match ParseChunkSize(d[..crlf])
      case None => Malformed
      case Some(size) =>
        if size == 0 then LastChunk(m, crlf + 2, d[crlf + 2..])
        else DataChunk(m, crlf + 2, size, d[crlf + 2..])
  }

  /** The octets of one chunk must all be there, and two more; a CR LF behind them is
      dropped, anything else is left for the next chunk header. Malformed when that is more
      than the 32-bit counter of `read_body_chunk_normal` holds. */
  function DataChunk(m: Msg, sizeLine: nat, size: nat, rest: string): (u: Unit)
    ensures u.Wait? ==> u.msg == m
    ensures u.Take? ==> sizeLine + size <= u.used <= sizeLine + |rest|
  {
    if |rest| < size + 2 then Wait(m)
    else if DataUsed(size, rest) >= UNSIGNED then Malformed
    else Take(m.(body := m.body + rest[..size]), sizeLine + DataUsed(size, rest))
  }

  /** The octets of a chunk behind its size line, with the CR LF that may end it. */
  function DataUsed(size: nat, rest: string): nat {
    size + if CrlfAt(rest, size) then 2 else 0
  }

  /** The last chunk is consumed only with its whole trailer block. Trailer fields
      seen before the block is complete are stored in the header all the same. */
  function LastChunk(m: Msg, sizeLine: nat, rest: string): (u: Unit)
    ensures u.Take? ==> sizeLine < u.used <= sizeLine + |rest|
  {
    var block := Trailers(rest);
    match block.state
    case Broken => Malformed
    case Open => Wait(m.(header := m.header + block.fields))
    case Closed => Take(m.(header := m.header + block.fields, complete := true), sizeLine + block.used)
  }

  function UnitAt(m: Msg, d: string): (u: Unit)
    ensures u.Take? ==> 0 < u.used <= |d|
  {
    if m.statusCode == -1 then StatusUnit(m, d)
    else if !m.headerRead then HeaderUnit(m, d)
    else BodyOrChunk(m, d)
  }

  function BodyOrChunk(m: Msg, d: string): (u: Unit)
    ensures u.Take? ==> 0 < u.used <= |d|
  {
    match CheckBodyType(m)
    case None => Malformed
    case Some(m1) =>
      if m1.bodyRemaining.Some? then BodyUnit(m1, m1.bodyRemaining.value, d)
      else if m1.chunked then ChunkUnit(m1, d)
      else Wait(m1)
  }

  // ---- A whole call --------------------------------------------------------

  datatype Parsed = Parsed(msg: Msg, used: nat)

  /** Units are taken from the front of `d` until none is complete. `None` when
      the octets are malformed for this parser. */
  function Parse(m: Msg, d: string): (r: Option<Parsed>)
    ensures r.Some? ==> r.value.used <= |d|
    decreases |d|
  {
    match UnitAt(m, d)
    case Wait(m1) => Some(Parsed(m1, 0))
    case Malformed => None
    case Take(m1, used) =>
      match Parse(m1, d[used..])
      case None => None
      case Some(p) => Some(Parsed(p.msg, used + p.used))
  }

  predicate WellFormed(m: Msg, d: string) {
    Parse(m, d).Some?
  }

  /** `p` with `used` more octets consumed in front. */
  function Behind(used: nat, p: Option<Parsed>): Option<Parsed> {
    if p.None? then None else Some(Parsed(p.value.msg, used + p.value.used))
  }

  /** The rest of a call on `d` whose first unit is `u`. */
  function After(u: Unit, d: string): Option<Parsed>
    requires u.Take? ==> u.used <= |d|
  {
    match u
    case Wait(m) => Some(Parsed(m, 0))
    case Take(m, used) => Behind(used, Parse(m, d[used..]))
    case Malformed => None
  }

  lemma FirstUnit(m: Msg, d: string)
    ensures Parse(m, d) == After(UnitAt(m, d), d)
  {
    hide UnitAt;
  }

  // ---- Prefixes ------------------------------------------------------------

  lemma LinePrefix(d: string, t: string)
    requires d <= t
    ensures HeaderLine(d).Incomplete? || HeaderLine(t) == HeaderLine(d)
  {
    CrlfPrefix(d, t);
    if FindCrlf(d).Some? {
      assert t[..FindCrlf(d).value] == d[..FindCrlf(d).value];
    }
  }

  /** A block seen in part has assigned some of the fields the longer one assigns. */
  lemma {:induction false} TrailersPrefix(d: string, t: string)
    requires d <= t
    ensures Trailers(d).state == Broken ==> Trailers(t).state == Broken
    ensures Trailers(d).state == Closed ==> Trailers(t) == Trailers(d)
    ensures Trailers(d).fields.Keys <= Trailers(t).fields.Keys
    decreases |d|
  {
    LinePrefix(d, t);
    if HeaderLine(d).Field? {
      var len := HeaderLine(d).len;
      assert d[len..] <= t[len..];
      TrailersPrefix(d[len..], t[len..]);
    }
  }

  /** Assigning part of the fields first changes nothing once all are assigned. */
  lemma AssignPartThenAll(h: Header, part: Header, all: Header)
    requires part.Keys <= all.Keys
    ensures (h + part) + all == h + all
  {
  }

  lemma LastChunkPrefix(m: Msg, sizeLine: nat, d: string, t: string)
    requires d <= t && !LastChunk(m, sizeLine, t).Malformed?
    ensures !LastChunk(m, sizeLine, d).Malformed?
    ensures LastChunk(m, sizeLine, d).Take? ==> LastChunk(m, sizeLine, t) == LastChunk(m, sizeLine, d)
    ensures LastChunk(m, sizeLine, d).Wait? ==>
              var m1 := LastChunk(m, sizeLine, d).msg;
              m1 == m.(header := m1.header) && LastChunk(m1, sizeLine, t) == LastChunk(m, sizeLine, t)
  {
    TrailersPrefix(d, t);
    AssignPartThenAll(m.header, Trailers(d).fields, Trailers(t).fields);
  }

  lemma DataChunkPrefix(m: Msg, sizeLine: nat, size: nat, d: string, t: string)
    requires d <= t && !DataChunk(m, sizeLine, size, d).Wait?
    ensures DataChunk(m, sizeLine, size, t) == DataChunk(m, sizeLine, size, d)
  {
    assert d[..size] == t[..size];
    assert CrlfAt(d, size) == CrlfAt(t, size);
  }

  lemma {:induction false} ChunkPrefix(m: Msg, d: string, t: string)
    requires d <= t && !ChunkUnit(m, t).Malformed?
    ensures !ChunkUnit(m, d).Malformed?
    ensures ChunkUnit(m, d).Take? ==> ChunkUnit(m, t) == ChunkUnit(m, d)
    ensures ChunkUnit(m, d).Wait? ==>
              var m1 := ChunkUnit(m, d).msg;
              m1 == m.(header := m1.header) && ChunkUnit(m1, t) == ChunkUnit(m, t)
  {
    hide LastChunk, DataChunk, ParseChunkSize;
    CrlfPrefix(d, t);
    if !m.complete && FindCrlf(d).Some? {
      var crlf := FindCrlf(d).value;
      assert t[..crlf] == d[..crlf];
      var dRest, tRest := d[crlf + 2..], t[crlf + 2..];
      assert dRest <= tRest;
      var size := ParseChunkSize(d[..crlf]).value;
      if size == 0 {
        LastChunkPrefix(m, crlf + 2, dRest, tRest);
      } else if !DataChunk(m, crlf + 2, size, dRest).Wait? {
        DataChunkPrefix(m, crlf + 2, size, dRest, tRest);
      }
    }
  }

  predicate BodyHasSize(m: Msg) {
    && m.statusCode != -1
    && m.headerRead
    && CheckBodyType(m).Some?
    && CheckBodyType(m).value.bodyRemaining.Some?
  }

  /** Deciding on the body type twice is deciding on it once. */
  lemma CheckedAlready(m: Msg, d: string)
    requires BodyHasSize(m)
    ensures Sized(CheckBodyType(m).value)
    ensures UnitAt(CheckBodyType(m).value, d) == UnitAt(m, d)
  {
  }

  /** Whatever one unit says about a prefix holds for the longer octets too. Only a
      Content-Length body is different: it takes whatever there is. */
  lemma UnitPrefix(m: Msg, d: string, t: string)
    requires d <= t && !UnitAt(m, t).Malformed?
    ensures !UnitAt(m, d).Malformed?
    ensures UnitAt(m, d).Wait? ==> UnitAt(UnitAt(m, d).msg, t) == UnitAt(m, t)
    ensures UnitAt(m, d).Take? ==>
              || UnitAt(m, t) == UnitAt(m, d)
              || BodyHasSize(m)
  {
    if m.statusCode == -1 {
      CrlfPrefix(d, t);
      if FindCrlf(d).Some? {
        assert t[..FindCrlf(d).value] == d[..FindCrlf(d).value];
      }
    } else if !m.headerRead {
      LinePrefix(d, t);
    } else {
      var m1 := CheckBodyType(m).value;
      if m1.bodyRemaining.None? && m1.chunked {
        ChunkPrefix(m1, d, t);
      }
    }
  }

  predicate Sized(m: Msg) {
    m.statusCode != -1 && m.headerRead && m.bodyRemaining.Some?
  }

  /** A message whose body has a length, after a call that offers `d`. */
  function BodyCall(m: Msg, d: string): (p: Parsed)
    requires Sized(m) && |d| <= m.bodyRemaining.value
    ensures Sized(p.msg) && p.msg.bodyRemaining.value == m.bodyRemaining.value - |d| && p.used == |d|
  {
    var left: nat := m.bodyRemaining.value - |d|;
    Parsed(m.(body := m.body + d, bodyRemaining := Some(left), complete := m.complete || left == 0), |d|)
  }

  lemma SizedUnit(m: Msg, d: string)
    requires Sized(m)
    ensures UnitAt(m, d) == BodyUnit(m, m.bodyRemaining.value, d)
  {
  }

  /** With nothing left to read a call changes nothing but the flag; otherwise the
      whole offer is the one unit taken. */
  lemma ParseBody(m: Msg, d: string)
    requires Sized(m)
    ensures Parse(m, d) == if m.bodyRemaining.value == 0 then Some(BodyCall(m, ""))
                           else if |d| <= m.bodyRemaining.value then Some(BodyCall(m, d))
                           else None
  {
    hide UnitAt;
    assert m.body + "" == m.body;
    SizedUnit(m, d);
    if 0 < |d| <= m.bodyRemaining.value {
      assert d[|d|..] == "";
      SizedUnit(BodyCall(m, d).msg, "");
      assert Parse(BodyCall(m, d).msg, "") == Some(Parsed(BodyCall(m, d).msg, 0));
    }
  }

  /** The call after a call: the second one starts where the first one ended. */
  lemma BodyCallTwice(m: Msg, a: string, b: string)
    requires Sized(m) && |a + b| <= m.bodyRemaining.value
    ensures BodyCall(BodyCall(m, a).msg, b).msg == BodyCall(m, a + b).msg
  {
    assert m.body + a + b == m.body + (a + b);
  }

  lemma BodyOffer(m: Msg, t: string, k: nat)
    requires Sized(m) && WellFormed(m, t) && k <= |t|
    ensures OfferResumes(m, t, k)
  {
    hide Parse, BodyCall;
    ParseBody(m, t);
    ParseBody(m, t[..k]);
    var p := Parse(m, t[..k]).value;
    ParseBody(p.msg, t[p.used..]);
    if m.bodyRemaining.value == 0 {
      BodyCallTwice(m, "", "");
    } else {
      assert t[..k] + t[k..] == t && t + "" == t;
      BodyCallTwice(m, t[..k], t[k..]);
      BodyCallTwice(m, t, "");
    }
  }

  /** Offering the first `k` octets and then all that is left unused ends where one
      call on the whole of `t` ends. */
  ghost predicate OfferResumes(m: Msg, t: string, k: nat)
    requires k <= |t| && WellFormed(m, t)
  {
    && WellFormed(m, t[..k])
    && var first := Parse(m, t[..k]).value;
       var whole := Parse(m, t).value;
       && first.used <= whole.used
       && Parse(first.msg, t[first.used..]) == Some(Parsed(whole.msg, whole.used - first.used))
  }

  lemma {:induction false} OfferBeforeTake(m: Msg, t: string, k: nat)
    requires WellFormed(m, t) && k <= |t|
    requires UnitAt(m, t).Take? && UnitAt(m, t[..k]) == UnitAt(m, t)
    requires var u := UnitAt(m, t); WellFormed(u.msg, t[u.used..]) && OfferResumes(u.msg, t[u.used..], k - u.used)
    ensures OfferResumes(m, t, k)
  {
    hide UnitAt;
    var u := UnitAt(m, t);
    var tail := t[u.used..];
    assert t[..k][u.used..] == tail[..k - u.used];
    var first := Parse(u.msg, tail[..k - u.used]).value;
    assert tail[first.used..] == t[u.used + first.used..];
    assert Parse(m, t).value == Parsed(Parse(u.msg, tail).value.msg, u.used + Parse(u.msg, tail).value.used);
    assert Parse(m, t[..k]) == Some(Parsed(first.msg, u.used + first.used));
  }

  /** The heart of fragmentation independence. */
  lemma {:induction false} OfferPrefix(m: Msg, t: string, k: nat)
    requires WellFormed(m, t) && k <= |t|
    ensures OfferResumes(m, t, k)
    decreases |t|
  {
    hide UnitAt, BodyOrChunk, CheckBodyType;
    UnitPrefix(m, t[..k], t);
    if BodyHasSize(m) {
      var m1 := CheckBodyType(m).value;
      CheckedAlready(m, t);
      CheckedAlready(m, t[..k]);
      SameUnitSameParse(m, m1, t);
      SameUnitSameParse(m, m1, t[..k]);
      BodyOffer(m1, t, k);
    } else {
      match UnitAt(m, t[..k])
      case Wait(m1) =>
        assert t[0..] == t;
        SameUnitSameParse(m, m1, t);
      case Take(m1, used) =>
        OfferPrefix(m1, t[used..], k - used);
        OfferBeforeTake(m, t, k);
    }
  }

  lemma SameUnitSameParse(m: Msg, m1: Msg, t: string)
    requires UnitAt(m1, t) == UnitAt(m, t)
    ensures Parse(m1, t) == Parse(m, t)
  {
    hide UnitAt;
  }

  // ---- Any sequence of offers ----------------------------------------------

  /** Where an offer ends: at `end`, but not past the stream nor before what is used. */
  function OfferEnd(used: nat, s: string, end: nat): (e: nat)
    requires used <= |s|
    ensures used <= e <= |s|
  {
    if end <= used then used else if end <= |s| then end else |s|
  }

  /** One call for each element of `ends`: the call is offered the unconsumed octets
      of `s` up to that index. */
  function Offers(p: Parsed, s: string, ends: seq<nat>): (r: Option<Parsed>)
    requires p.used <= |s|
    ensures r.Some? ==> r.value.used <= |s|
    decreases |ends|
  {
    if ends == [] then Some(p)
    else
      var end := OfferEnd(p.used, s, ends[0]);
      match Parse(p.msg, s[p.used..end])
      case None => None
      case Some(q) => Offers(Parsed(q.msg, p.used + q.used), s, ends[1..])
  }

  /** What stays true between calls: from where the parser stands, one call on all
      that is left would finish as one call on the whole stream. */
  ghost predicate OnCourse(p: Parsed, s: string, whole: Parsed) {
    && p.used <= whole.used <= |s|
    && Parse(p.msg, s[p.used..]) == Some(Parsed(whole.msg, whole.used - p.used))
  }

  lemma {:induction false} OfferStaysOnCourse(p: Parsed, s: string, whole: Parsed, end: nat)
    requires OnCourse(p, s, whole) && p.used <= end <= |s|
    ensures WellFormed(p.msg, s[p.used..end])
    ensures var q := Parse(p.msg, s[p.used..end]).value;
            OnCourse(Parsed(q.msg, p.used + q.used), s, whole)
  {
    hide Parse;
    var t := s[p.used..];
    var k := end - p.used;
    assert t[..k] == s[p.used..end];
    OfferPrefix(p.msg, t, k);
    var q := Parse(p.msg, t[..k]).value;
    assert t[q.used..] == s[p.used + q.used..];
  }

  lemma {:induction false} OffersStayOnCourse(p: Parsed, s: string, whole: Parsed, ends: seq<nat>)
    requires OnCourse(p, s, whole)
    ensures Offers(p, s, ends).Some? && OnCourse(Offers(p, s, ends).value, s, whole)
    decreases |ends|
  {
    hide Parse;
    if ends != [] {
      var end := OfferEnd(p.used, s, ends[0]);
      OfferStaysOnCourse(p, s, whole, end);
      var q := Parse(p.msg, s[p.used..end]).value;
      OffersStayOnCourse(Parsed(q.msg, p.used + q.used), s, whole, ends[1..]);
    }
  }

  /** Fragmentation independence: any calls on any prefixes of what is left, then one
      call on all that is left, end in the message and the total of one single call. */
  lemma {:induction false} FragmentationIndependence(m: Msg, s: string, ends: seq<nat>)
    requires WellFormed(m, s)
    ensures Offers(Parsed(m, 0), s, ends + [|s|]) == Parse(m, s)
  {
    hide Parse;
    assert s[0..] == s;
    var whole := Parse(m, s).value;
    OffersStayOnCourse(Parsed(m, 0), s, whole, ends);
    var p := Offers(Parsed(m, 0), s, ends).value;
    assert s[p.used..|s|] == s[p.used..];
    OffersAppend(Parsed(m, 0), s, ends, |s|);
  }

  lemma {:induction false} OffersAppend(p: Parsed, s: string, ends: seq<nat>, last: nat)
    requires p.used <= |s| && Offers(p, s, ends).Some?
    ensures Offers(p, s, ends + [last]) == Offers(Offers(p, s, ends).value, s, [last])
    decreases |ends|
  {
    hide Parse;
    if ends == [] {
      assert ends + [last] == [last];
    } else {
      assert (ends + [last])[1..] == ends[1..] + [last];
      var end := OfferEnd(p.used, s, ends[0]);
      var q := Parse(p.msg, s[p.used..end]).value;
      OffersAppend(Parsed(q.msg, p.used + q.used), s, ends[1..], last);
    }
  }

  /** A call leaves nothing that the same octets, offered again, would change. */
  lemma {:induction false} ParseSettles(m: Msg, d: string)
    requires WellFormed(m, d)
    ensures var p := Parse(m, d).value;
            Parse(p.msg, d[p.used..]) == Some(Parsed(p.msg, 0))
  {
    assert d[..|d|] == d;
    OfferPrefix(m, d, |d|);
  }
}
