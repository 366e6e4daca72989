/** From the response a server writes to the response a client is handed. */
module HttpDelivery {
  import Text
  import opened HttpMessage
  import opened HttpRender
  import opened Session
  import opened SessionRuns
  import opened HttpSession

  /** A chunked response sent in any packets is delivered once, as it was written but for the
      case of its field names, and what follows it stays in the buffer. */
  lemma ChunkedResponseDelivered(
      version: string, code: nat, reason: string, fields: seq<(string, string)>,
      chunks: seq<Chunk>, trailers: seq<(string, string)>, after: string, events: seq<Event<App>>)
    requires ValidStatus(version, code, reason) && ValidFields(fields)
    requires SaysChunked(AsMap(Lowered(fields))) && (forall c <- chunks :: ValidChunk(c)) && ValidFields(trailers)
    requires AllTraffic(events)
    requires Connection(true, events).received
          == ChunkedResponse(version, code, reason, fields, chunks, trailers) + after
    ensures var s := Next(HttpProcess, Connection(true, events), Readable).state;
            && Flat(s.input) == after
            && s.app.delivered ==
                 [Msg(code, reason, AsMap(Lowered(fields)) + AsMap(Lowered(trailers)), Joined(chunks),
                      true, true, true, Text.None)]
  {
    hide Parse, Connection, Next, ChunkedResponse, ValidFields, ValidStatus;
    var text := ChunkedResponse(version, code, reason, fields, chunks, trailers);
    ChunkedResponseReadsBack(version, code, reason, fields, chunks, trailers, after);
    EndToEnd(true, events);
    var s := Next(HttpProcess, Connection(true, events), Readable).state;
    assert (text + after)[|text|..] == after;
    assert (s.consumed + Flat(s.input))[|s.consumed|..] == Flat(s.input);
  }

  /** The same for a response with a Content-Length (or with no body at all). */
  lemma SizedResponseDelivered(
      version: string, code: nat, reason: string, fields: seq<(string, string)>,
      body: string, after: string, events: seq<Event<App>>)
    requires ValidStatus(version, code, reason) && ValidFields(fields)
    requires SaysLength(AsMap(Lowered(fields)), |body|) && (body != "" ==> after == "")
    requires AllTraffic(events)
    requires Connection(true, events).received
          == SizedResponse(version, code, reason, fields, body) + after
    ensures var s := Next(HttpProcess, Connection(true, events), Readable).state;
            && Flat(s.input) == after
            && s.app.delivered == [Msg(code, reason, AsMap(Lowered(fields)), body, true, true, false, Text.Some(0))]
  {
    hide Parse, Connection, Next, SizedResponse, ValidFields, ValidStatus;
    var text := SizedResponse(version, code, reason, fields, body);
    SizedResponseReadsBack(version, code, reason, fields, body, after);
    EndToEnd(true, events);
    var s := Next(HttpProcess, Connection(true, events), Readable).state;
    assert (text + after)[|text|..] == after;
    assert (s.consumed + Flat(s.input))[|s.consumed|..] == Flat(s.input);
  }
}
