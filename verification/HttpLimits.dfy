/** Where `Message::process` does not do what an incremental parser should, and exactly
    when it does. */
module HttpLimits {
  import opened Text
  import opened HttpMessage
  import opened HttpParser

  // ---- A header line without a colon ---------------------------------------

  /** The loop `while (!header_read)` of `process`, between two passes. */
  datatype Loop = Loop(msg: Msg, rest: string, read: nat, ended: bool)

  function Pass(l: Loop): Loop {
    if l.ended then l else
    match HeaderLine(l.rest)
    case Incomplete => l.(ended := true)
    case Blank => Loop(l.msg.(headerRead := true), l.rest[2..], l.read + 2, true)
    case NoColon => l.(read := l.read + |l.rest|)
    case Field(name, value, len) =>
      Loop(l.msg.(header := l.msg.header[name := value]), l.rest[len..], l.read + len, false)
  }

  function Passes(l: Loop, n: nat): Loop
    decreases n
  {
    if n == 0 then l else Passes(Pass(l), n - 1)
  }

  lemma {:induction false} BrokenNeverEnds(l: Loop, n: nat)
    requires !l.ended && Trailers(l.rest).state == Broken
    ensures !Passes(l, n).ended
    decreases n
  {
    hide HeaderLine;
    BlockStep(l.rest);
    if n > 0 {
      BrokenNeverEnds(Pass(l), n - 1);
    }
  }

  lemma {:induction false} UnbrokenEnds(l: Loop) returns (n: nat)
    requires Trailers(l.rest).state != Broken
    ensures Passes(l, n).ended
    decreases |l.rest|
  {
    hide HeaderLine;
    BlockStep(l.rest);
    if l.ended {
      n := 0;
    } else if HeaderLine(l.rest).Field? {
      var k := UnbrokenEnds(Pass(l));
      n := k + 1;
    } else {
      n := 1;
      assert Passes(Pass(l), 0) == Pass(l);
    }
  }

  /** `line` is one line: the first CR LF behind it is the one that ends it. */
  predicate IsLine(line: string) {
    line != "" && FindCrlf(line + "\r\n") == Some(|line|)
  }

  predicate HasEnd(line: string) {
    exists i: nat | i < |line| :: line[i] in ENDS
  }

  function Unlines(lines: seq<string>): string {
    if lines == [] then "" else lines[0] + "\r\n" + Unlines(lines[1..])
  }

  /** `d` begins with lines that hold a colon, CR or LF, and then has one that does not. */
  predicate BadLineBehind(d: string, lines: seq<string>, bad: string, rest: string) {
    && (forall i :: 0 <= i < |lines| ==> IsLine(lines[i]) && HasEnd(lines[i]))
    && IsLine(bad) && !HasEnd(bad)
    && d == Unlines(lines) + (bad + "\r\n" + rest)
  }

  /** The first line of some octets is what stands before their first CR LF. */
  lemma FirstLine(line: string, rest: string)
    requires IsLine(line)
    ensures FindCrlf(line + "\r\n" + rest) == Some(|line|)
    ensures HeaderLine(line + "\r\n" + rest) == ParseField(line)
  {
    var d := line + "\r\n";
    assert d <= d + rest;
    CrlfPrefix(d, d + rest);
    assert (d + rest)[..|line|] == line;
  }

  lemma LineOf(d: string, crlf: nat)
    requires FindCrlf(d) == Some(crlf) && crlf > 0
    ensures IsLine(d[..crlf]) && d == d[..crlf] + "\r\n" + d[crlf + 2..]
  {
    var line := d[..crlf];
    assert d == line + "\r\n" + d[crlf + 2..];
    var t := line + "\r\n";
    assert t == d[..crlf + 2];
    CrlfPrefix(t, d);
    assert CrlfAt(t, crlf);
  }

  lemma FieldHasEnd(line: string)
    ensures ParseField(line).Field? <==> HasEnd(line)
  {
    var found := FindAnyOf(line, ENDS, 0);
    if found.Some? {
      assert line[found.value] in ENDS;
    }
  }

  lemma {:induction false} BadLineBreaks(d: string, lines: seq<string>, bad: string, rest: string)
    requires BadLineBehind(d, lines, bad, rest)
    ensures Trailers(d).state == Broken
    decreases |lines|
  {
    hide HasEnd, IsLine, ParseField, HeaderLine;
    if lines == [] {
      assert d == bad + "\r\n" + rest;
      FirstLine(bad, rest);
      FieldHasEnd(bad);
      BlockStep(d);
    } else {
      var tail := Unlines(lines[1..]) + (bad + "\r\n" + rest);
      assert d == lines[0] + "\r\n" + tail;
      FirstLine(lines[0], tail);
      FieldHasEnd(lines[0]);
      assert d[|lines[0]| + 2..] == tail;
      BlockStep(d);
      BadLineBreaks(tail, lines[1..], bad, rest);
    }
  }

  lemma {:induction false} BrokenHasBadLine(d: string) returns (lines: seq<string>, bad: string, rest: string)
    requires Trailers(d).state == Broken
    ensures BadLineBehind(d, lines, bad, rest)
    decreases |d|
  {
    hide HasEnd, IsLine, ParseField, Trailers;
    BlockStep(d);
    var crlf := FindCrlf(d).value;
    LineOf(d, crlf);
    FieldHasEnd(d[..crlf]);
    if HeaderLine(d).NoColon? {
      lines, bad, rest := [], d[..crlf], d[crlf + 2..];
      assert d == "" + (bad + "\r\n" + rest);
    } else {
      var more;
      more, bad, rest := BrokenHasBadLine(d[crlf + 2..]);
      lines := [d[..crlf]] + more;
      OneMoreLine(d, d[..crlf], d[crlf + 2..], more, bad, rest);
    }
  }

  lemma OneMoreLine(d: string, line: string, tail: string, more: seq<string>, bad: string, rest: string)
    requires IsLine(line) && HasEnd(line) && d == line + "\r\n" + tail && BadLineBehind(tail, more, bad, rest)
    ensures BadLineBehind(d, [line] + more, bad, rest)
  {
    hide IsLine, HasEnd;
    assert ([line] + more)[1..] == more;
    assert d == line + "\r\n" + (Unlines(more) + (bad + "\r\n" + rest));
  }

  /** The header loop turns for ever, counting octets it never drops, if and only if some lines
      that hold a colon or a stray CR or LF are followed by a complete line that holds none and
      is not blank. */
  lemma HeaderLoopEnds(m: Msg, d: string)
    ensures (exists n: nat :: Passes(Loop(m, d, 0, false), n).ended) <==> Trailers(d).state != Broken
    ensures (exists n: nat :: Passes(Loop(m, d, 0, false), n).ended) <==>
            !exists lines, bad, rest :: BadLineBehind(d, lines, bad, rest)
  {
    hide Trailers, Passes, BadLineBehind;
    var l := Loop(m, d, 0, false);
    if Trailers(d).state == Broken {
      forall n: nat
        ensures !Passes(l, n).ended
      {
        BrokenNeverEnds(l, n);
      }
      var lines, bad, rest := BrokenHasBadLine(d);
    } else {
      var n := UnbrokenEnds(l);
      forall lines, bad, rest
        ensures !BadLineBehind(d, lines, bad, rest)
      {
        if BadLineBehind(d, lines, bad, rest) {
          BadLineBreaks(d, lines, bad, rest);
        }
      }
    }
  }

  /** A line without a colon, on which the loop turns for ever; and one with a stray LF
      instead, on which it does not. */
  lemma HeaderLoopTurnsForEver()
    ensures forall m: Msg, n: nat :: !Passes(Loop(m, "a\r\n\r\n", 0, false), n).ended
    ensures Trailers("a\nb\r\n\r\n").state == Closed
  {
    CrlfAfterLine("a", "\r\n");
    assert "a\r\n\r\n" == "a" + "\r\n" + "\r\n" && "a\r\n\r\n"[..1] == "a";
    NothingFound("a");
    assert Trailers("a\r\n\r\n").state == Broken;
    forall m: Msg, n: nat
      ensures !Passes(Loop(m, "a\r\n\r\n", 0, false), n).ended
    {
      BrokenNeverEnds(Loop(m, "a\r\n\r\n", 0, false), n);
    }
    CrlfAfterLine("a\nb", "\r\n");
    var d := "a\nb\r\n\r\n";
    assert d == "a\nb" + "\r\n" + "\r\n" && d[..3] == "a\nb" && d[5..] == "\r\n";
    FoundAt("a\nb", ENDS, 0, 1);
    assert HeaderLine(d).Field? && HeaderLine(d).len == 5;
    assert CrlfAt("\r\n", 0);
    assert Trailers("\r\n").state == Closed;
  }

  lemma NothingFound(line: string)
    requires forall c <- line :: c !in ENDS
    ensures FindAnyOf(line, ENDS, 0).None?
  {
  }

  // ---- More octets than the Content-Length ---------------------------------

  /** A body that ends inside the octets offered is recognised, and what follows it is
      left alone, if and only if nothing follows it or the body was over before. */
  lemma BodyEndsWhereItShould(m: Msg, d: string)
    requires m.bodyRemaining.Some? && m.bodyRemaining.value < SIZE_T && |d| < SIZE_T
    requires !m.complete && m.bodyRemaining.value <= |d|
    ensures var remaining := m.bodyRemaining.value;
            var (m1, used) := BodyRead(m, d);
            && ((m1.complete && m1.body == m.body + d[..remaining] && used == remaining)
                  <==> (remaining == 0 || |d| == remaining))
            && (remaining != 0 && |d| > remaining ==>
                  !m1.complete && m1.bodyRemaining.value == SIZE_T - (|d| - remaining))
  {
    var remaining := m.bodyRemaining.value;
    assert d[..|d|] == d;
    assert m.body + d[..0] == m.body;
    if |m.body + d| == |m.body + d[..remaining]| {
      assert |d| == remaining;
    }
  }

  /** One octet of body left, two offered. */
  lemma BodyOverrun()
    ensures var m := FRESH.(statusCode := 200, headerRead := true, bodyRemaining := Some(1));
            BodyRead(m, "ab") == (m.(body := "ab", bodyRemaining := Some(SIZE_T - 1)), 2)
  {
    assert "" + "ab" == "ab";
  }

  /** One call of `read_body` for each element of `ends`, each offered the unused octets of
      `s` up to there. */
  function BodyOffers(m: Msg, s: string, used: nat, ends: seq<nat>): (r: (Msg, nat))
    requires m.bodyRemaining.Some? && m.bodyRemaining.value < SIZE_T && used <= |s| < SIZE_T
    ensures used <= r.1 <= |s|
    decreases |ends|
  {
    if ends == [] then (m, used)
    else
      var (m1, n) := BodyRead(m, s[used..OfferEnd(used, s, ends[0])]);
      BodyOffers(m1, s, used + n, ends[1..])
  }

  /** No offer begins inside a body of `length` octets and ends behind it. */
  predicate NoneStraddles(length: nat, s: string, used: nat, ends: seq<nat>)
    requires used <= |s|
    decreases |ends|
  {
    ends == [] ||
    var end := OfferEnd(used, s, ends[0]);
    && !(used < length < end)
    && NoneStraddles(length, s, if used < length then end else used, ends[1..])
  }

  /** `used` octets of a body of `length` octets have been read, and none behind it. */
  predicate ReadRight(m0: Msg, length: nat, s: string, m: Msg, used: nat)
    requires used <= |s|
  {
    && used <= length && m.body == m0.body + s[..used]
    && m.bodyRemaining == Some(length - used) && m.complete == (used == length)
  }

  lemma {:induction false} OffersFrom(m0: Msg, length: nat, s: string, m: Msg, used: nat, ends: seq<nat>)
    requires 0 < length <= |s| < SIZE_T && used <= |s| && ReadRight(m0, length, s, m, used)
    ensures var (r, n) := BodyOffers(m, s, used, ends);
            ReadRight(m0, length, s, r, n) <==> NoneStraddles(length, s, used, ends)
    decreases |ends|
  {
    if ends != [] {
      var end := OfferEnd(used, s, ends[0]);
      var offered := s[used..end];
      var (m1, n) := BodyRead(m, offered);
      if used < length < end {
        assert BodyOffers(m, s, used, ends).1 > length;
      } else {
        if used < length {
          assert m0.body + s[..used] + offered == m0.body + s[..end];
        }
        OffersFrom(m0, length, s, m1, used + n, ends[1..]);
      }
    }
  }

  /** However a body and octets behind it are offered: it is read right, and what is behind
      it left alone, if and only if no offer straddles its end. */
  lemma BodyOffersExactly(m: Msg, length: nat, s: string, ends: seq<nat>)
    requires m.bodyRemaining == Some(length) && !m.complete && 0 < length <= |s| < SIZE_T
    ensures var (r, n) := BodyOffers(m, s, 0, ends);
            ReadRight(m, length, s, r, n) <==> NoneStraddles(length, s, 0, ends)
  {
    assert m.body + s[..0] == m.body;
    OffersFrom(m, length, s, m, 0, ends);
  }

  // ---- A chunk of 2^32 octets ----------------------------------------------

  /** The count reported for a chunk is that of the octets dropped if and only if those, its
      CR LF included, are fewer than 2^32. */
  lemma ChunkCountExactly(m: Msg, d: string, size: nat)
    requires |d| >= size + 2
    ensures var (m1, count) := ChunkRead(m, d, size);
            && m1 == m.(body := m.body + d[..size])
            && (count == DataUsed(size, d) <==> size + (if CrlfAt(d, size) then 2 else 0) < UNSIGNED)
  {
  }

  /** A chunk of 2^32 - 2 octets that ends in CR LF is appended to the body and reported as
      nothing at all, which the chunk loop takes for a chunk that is not there yet; without
      the CR LF it is reported right. */
  lemma ChunkCountWraps(m: Msg, data: string)
    requires |data| == UNSIGNED - 2
    ensures ChunkRead(m, data + "\r\n", UNSIGNED - 2) == (m.(body := m.body + data), 0)
    ensures ChunkRead(m, data + "0\r\n", UNSIGNED - 2) == (m.(body := m.body + data), UNSIGNED - 2)
  {
    assert (data + "\r\n")[..UNSIGNED - 2] == data == (data + "0\r\n")[..UNSIGNED - 2];
    assert CrlfAt(data + "\r\n", UNSIGNED - 2);
  }

  // ---- A status line without the second space ------------------------------

  /** What `process_status` cuts out of the octets offered; nothing when they hold no space. */
  function MaybeCut(d: string, crlf: nat): Option<(string, string)>
    requires crlf <= |d| < NPOS
  {
    if ' ' in d then Some(StatusCut(d, crlf)) else None
  }

  /** The octets behind the status line leave what is read from it alone if and only if
      the line itself has both its spaces. */
  lemma StatusLineStable(d: string, crlf: nat)
    requires FindCrlf(d) == Some(crlf) && |d| + 2 < NPOS
    ensures (forall e: string | |d + e| < NPOS :: MaybeCut(d + e, crlf) == MaybeCut(d, crlf))
              <==> SplitStatusLine(d[..crlf]).Some?
  {
    hide StatusCut;
    FindInLine(d, crlf, {' '}, 0);
    if SplitStatusLine(d[..crlf]).Some? {
      forall e: string | |d + e| < NPOS
        ensures MaybeCut(d + e, crlf) == MaybeCut(d, crlf)
      {
        SecondSpaceDecides(d, e, crlf);
      }
    } else if ' ' !in d {
      assert MaybeCut(d + " ", crlf).Some?;
    } else {
      var v := FindAnyOf(d, {' '}, 0).value;
      FindInLine(d, crlf, {' '}, v + 1);
      if FindAnyOf(d, {' '}, v + 1).Some? {
        SpaceBehindLine(d, crlf);
        assert MaybeCut(d + "x", crlf) != MaybeCut(d, crlf);
      } else if crlf == 0 {
        OnlySpaceBehindNothing(d);
        assert MaybeCut(d + " x", crlf) != MaybeCut(d, crlf);
      } else {
        NoSecondSpace(d, crlf);
        assert MaybeCut(d + " ", crlf) != MaybeCut(d, crlf);
      }
    }
  }

  /** A status line without its second space: the octets behind it become the reason, and
      part of the code text. */
  lemma StatusLineUnstable()
    ensures FindCrlf("H 200\r\n") == Some(5) == FindCrlf("H 200\r\na b")
    ensures StatusCut("H 200\r\na b", 5) == ("200\r\na", "b")
  {
    CrlfAfterLine("H 200", "");
    assert "H 200" + "\r\n" + "" == "H 200\r\n";
    CrlfAfterLine("H 200", "a b");
    var d := "H 200\r\na b";
    assert "H 200" + "\r\n" + "a b" == d;
    FoundAt(d, {' '}, 0, 1);
    FoundAt(d, {' '}, 2, 8);
    assert d[2..8] == "200\r\na" && d[9..] == "b";
  }

  const MINUS_ONE := "H -1 x\r\n"

  lemma MinusOneIsCut(behind: string)
    requires |behind| + 8 < NPOS
    ensures FindCrlf(MINUS_ONE + behind) == Some(6) && StatusCut(MINUS_ONE + behind, 6) == ("-1", "x")
  {
    var d := MINUS_ONE + behind;
    CrlfAfterLine("H -1 x", behind);
    assert "H -1 x" + "\r\n" + behind == d;
    FoundAt(d, {' '}, 0, 1);
    FoundAt(d, {' '}, 2, 4);
    assert d[2..4] == "-1" && d[5..6] == "x";
  }

  /** The code -1 is the source's "not read yet": the status line is dropped, and the call
      returns as if it had not been there, whatever is behind it; the next call looks for a
      status line again. */
  method MinusOneEndsTheCall(m: Message, behind: string) returns (read: nat, rest: string)
    requires m.statusCode == -1 && |behind| + 8 < NPOS
    modifies m
    ensures read == |MINUS_ONE| && rest == behind
    ensures m.State() == old(m.State()).(statusText := "x")
  {
    hide StoI;
    MinusOneIsCut(behind);
    MinusOneIsRead();
    assert (MINUS_ONE + behind)[8..] == behind;
    var threw, ends;
    read, rest, threw, ends := m.ReadStatus(MINUS_ONE + behind);
    assert ends && !threw;
  }

  lemma MinusOneIsRead()
    ensures StoI("-1") == Some(-1)
  {
    hide StrToInt;
    ReadSignedDigits("", "-", 1, 10);
    assert DigitChar(1) == '1' && Digits(1, 10) == "1";
    assert "" + ("-" + "1") == "-1";
  }

  lemma SecondSpaceDecides(d: string, e: string, crlf: nat)
    requires FindCrlf(d) == Some(crlf) && SplitStatusLine(d[..crlf]).Some? && |d + e| < NPOS
    ensures StatusCut(d + e, crlf) == StatusCut(d, crlf)
  {
    hide SplitStatusLine;
    CrlfPrefix(d, d + e);
    assert (d + e)[..crlf] == d[..crlf];
    StatusInView(d, crlf);
    StatusInView(d + e, crlf);
  }

  lemma NoSecondSpace(d: string, crlf: nat)
    requires FindCrlf(d) == Some(crlf) && crlf > 0 && |d| + 2 < NPOS && ' ' in d
    requires FindAnyOf(d, {' '}, FindAnyOf(d, {' '}, 0).value + 1).None?
    ensures StatusCut(d + " ", crlf) != StatusCut(d, crlf)
  {
    hide StatusCut;
    var t := d + " ";
    var v := FindAnyOf(d, {' '}, 0).value;
    assert forall k :: 0 <= k < |d| ==> t[k] == d[k];
    FoundAt(t, {' '}, 0, v);
    FoundAt(t, {' '}, v + 1, |d|);
    ReasonBehindLine(t, crlf, v, |d|);
    ReasonFromStart(d, crlf, v);
  }

  /** The line is empty, and the only space is behind it. */
  lemma OnlySpaceBehindNothing(d: string)
    requires FindCrlf(d) == Some(0) && |d| + 2 < NPOS && ' ' in d
    requires FindAnyOf(d, {' '}, FindAnyOf(d, {' '}, 0).value + 1).None?
    ensures StatusCut(d + " x", 0) != StatusCut(d, 0)
  {
    hide StatusCut;
    var t := d + " x";
    var v := FindAnyOf(d, {' '}, 0).value;
    assert forall k :: 0 <= k < |d| ==> t[k] == d[k];
    FoundAt(t, {' '}, 0, v);
    FoundAt(t, {' '}, v + 1, |d|);
    ReasonBehindLine(t, 0, v, |d|);
    ReasonFromStart(d, 0, v);
    assert |t[|d| + 1..]| == 1;
  }

  /** Without a second space the reason is cut from the beginning of the view. */
  lemma ReasonFromStart(d: string, crlf: nat, v: nat)
    requires crlf <= |d| < NPOS && ' ' in d
    requires FindAnyOf(d, {' '}, 0) == Some(v) && FindAnyOf(d, {' '}, v + 1).None?
    ensures StatusCut(d, crlf).1 == d[0..crlf]
  {
  }

  /** With the second space behind the line the length of the reason wraps, and all
      that follows the space is the reason. */
  lemma ReasonBehindLine(d: string, crlf: nat, v: nat, space: nat)
    requires crlf <= space < |d| < NPOS && ' ' in d
    requires FindAnyOf(d, {' '}, 0) == Some(v) && FindAnyOf(d, {' '}, v + 1) == Some(space)
    ensures StatusCut(d, crlf).1 == d[space + 1..]
  {
  }

  lemma {:induction false} SpaceBehindLine(d: string, crlf: nat)
    requires FindCrlf(d) == Some(crlf) && |d| + 2 < NPOS && ' ' in d
    requires var space := FindAnyOf(d, {' '}, FindAnyOf(d, {' '}, 0).value + 1);
             space.Some? && space.value >= crlf
    ensures StatusCut(d + "x", crlf) != StatusCut(d, crlf)
  {
    hide StatusCut;
    var t := d + "x";
    var v := FindAnyOf(d, {' '}, 0).value;
    var space := FindAnyOf(d, {' '}, v + 1).value;
    assert forall k :: 0 <= k < |d| ==> t[k] == d[k];
    FoundAt(t, {' '}, 0, v);
    FoundAt(t, {' '}, v + 1, space);
    ReasonBehindLine(d, crlf, v, space);
    ReasonBehindLine(t, crlf, v, space);
    assert |t[space + 1..]| == |d[space + 1..]| + 1;
  }
}
