# Covent, modelled and proved

Covent is an event loop with a C++20 coroutine runtime; on top of it stand an incremental
HTTP/1.1 parser, DNS record handling and an HTTP router. This project models the parts whose
correctness depends on every fragmentation, every interleaving or every random draw, and
proves what they promise. `dafny verify dfyconfig.toml` verifies all of it.

| files | what they model |
|---|---|
| `Text.dfy` | the searches and number conversions of the standard library the parser relies on |
| `HttpMessage.dfy`, `HttpParser.dfy` | the incremental response parser: what one call does, unit by unit; and the class with its fields assigned in place, proved to do exactly that |
| `HttpRender.dfy`, `HttpHeaders.dfy` | writing a response (`render_header`, status line, chunked coding) against reading it; what a header says, names in any case |
| `HttpWellFormed.dfy` | exactly which octets the parser does not handle |
| `HttpLimits.dfy` | where the parser does not do what an incremental parser should, with the exact condition |
| `Session.dfy`, `SessionRuns.dfy`, `SessionEffects.dfy` | `read_cb`, `processing_complete`, `close` over a segmented input buffer; every run; what each event does, closes included |
| `HttpSession.dfy`, `HttpDelivery.dfy` | parser and session together: end to end |
| `Coroutines.dfy`, `CoroutineInvariants.dfy`, `CoroutineSteps.dfy`, `CoroutineRuns.dfy` | tasks, wrappers, futures, deferral between loops as a machine; its invariant; what every reachable state promises |
| `CoroutineAnswers.dfy`, `CoroutineEffects.dfy` | where every answer to an await comes from; what each step does to threads, queues and answers |
| `CoroutineRuntime.dfy`, `CoroutineLimits.dfy` | the same machine with its fields assigned in place; what goes wrong, exactly, when a caller breaks a rule the runtime does not check |
| `Tasks.dfy`, `Gather.dfy`, `Race.dfy` | the two protocols on top of tasks |
| `GatherRuntime.dfy`, `GatherProgress.dfy` | `gather` as a program of the runtime machine: its coroutine starts, awaits and returns among whatever else happens; exactly when it can make its next move |
| `Scheduler.dfy` | deferred actions, deadlines and timeval arithmetic |
| `SrvLookup.dfy` | SRV selection (RFC 2782) for every sequence of draws |
| `Svcb.dfy` | SVCB RDATA in the layout of section 2.2 of RFC 9460, as laxly as the parser takes it, written and parsed |
| `PathTemplate.dfy` | path templates, matching, rendering, routing |
| `ServiceEntry.dfy` | wildcard configuration look-up |

Conventions. Octets of a stream are `char`s of a `string`. What the program takes from outside is
a parameter or an event: clock readings (never going back), random draws, the order in which
`std::map` is iterated and in which `std::sort` leaves equal elements, what a coroutine body
does next, how libevent lays out its buffer. An exception is `None`, `Throws` or a flag `threw`.
Where the source updates an object, the model is a class whose methods are proved to take the
old state to the value a pure function gives; the theorems are about those functions.

What the parser does not handle is kept out by one condition, `WellFormed`: on such octets
`HttpMessage.Parse` yields nothing. They are, exactly (`HttpWellFormed.MalformedExactly`),

- a status line without its two spaces, with a code `stoi` refuses, or with the code -1, which
  is the source's own "not read yet" (`HttpLimits.StatusLineStable`, `HttpLimits.MinusOneEndsTheCall`);
- a complete header or trailer line with neither a colon nor a stray CR or LF
  (`HttpLimits.HeaderLoopEnds`);
- a chunk size that `stol` refuses or that is -1 or -2, and a chunk that is there and takes, with
  its CR LF, 2^32 octets or more (`HttpLimits.ChunkCountExactly`);
- a Content-Length `stoi` refuses, and an offer that goes past the end of a body with a length
  (`HttpLimits.BodyOffersExactly`).

Where a lemma is named, it says what the code does instead, exactly when, or shows the input. Where
`stoi` or `stol` refuses, the contracts in `HttpParser` say that the method that throws has changed
nothing. The chunk sizes -1 and -2 are not modelled.

Results that go against what one may expect of the code, each with its exact condition and an
input at which it happens:

- A header line with neither a colon nor a stray CR or LF makes the loop of `process` turn for
  ever (`HttpLimits.HeaderLoopEnds`, `HttpLimits.HeaderLoopTurnsForEver`).
- Octets behind a body with a Content-Length, offered in the same call, are swallowed, and the
  remaining length wraps (`HttpLimits.BodyEndsWhereItShould`, `HttpLimits.BodyOffersExactly`,
  `HttpLimits.BodyOverrun`).
- A chunk of 2^32 - 2 octets with its CR LF is appended to the body and reported as nothing
  (`HttpLimits.ChunkCountExactly`, `HttpLimits.ChunkCountWraps`).
- What is read from a status line without both its spaces depends on the octets behind it
  (`HttpLimits.StatusLineStable`, `HttpLimits.StatusLineUnstable`).
- A Transfer-Encoding without "chunked" selects no body at all: the message takes nothing more
  and is never complete (`HttpHeaders.BodyAnnounced`).
- A `close` that `process` asks for in a call it finishes at once, with no output pending, is not
  carried out, and nothing is under way that would retry it (`SessionEffects.ForgottenExactly`,
  `SessionEffects.CloseForgottenHappens`).
- A task started from another loop's thread and awaited before it began is queued twice
  (`CoroutineLimits.StartThenAwaitExactly`, `CoroutineLimits.PendingStartHappens`); a cycle of
  awaits and a second awaiter of a future are not noticed (`CoroutineLimits.CycleExactly`,
  `CoroutineLimits.CycleHappens`, `CoroutineLimits.SecondAwaiterExactly`,
  `CoroutineLimits.SecondAwaiterHappens`).
- `gather` starts a child of another loop and then awaits it while that start is pending, which is
  the await just mentioned that the runtime does not bear (`GatherProgress.NextMoveExactly`,
  `GatherProgress.RemoteChildHappens`).
- A race over a container returns a value its predicate rejects, if and only if a task completes
  with it as soon as it is started (`Race.RejectedValueExactly`, `Race.RejectedValueHappens`).
- A race without a timeout sleeps for ever when all its tasks are done
  (`Race.StuckExactly`, `Race.SleepsForEver`).
- A race whose first finisher the predicate rejects reports a timeout at once
  (`Race.RejectedFinisherEndsTheRace`, `Race.EarlyTimeoutHappens`); a race over a container with a
  task that was done before it slept sleeps all the same (`Race.ContainerSleepsOnWinner`,
  `Race.SleepingOnWinnerHappens`).
- The SRV drain takes the record after a group without weight from whatever is left, whatever
  the weights (`SrvLookup.SecondRecordExactly`, `SrvLookup.FallThroughHappens`), and the first
  record of a group is selected by one draw more than its weight (`SrvLookup.DrawsPerRecord`,
  `SrvLookup.FirstIsFavoured`).
- Endpoints below a child of an endpoint are never reached (`PathTemplate.RouteMeaning`,
  `PathTemplate.DeepChildIsNotFound`).
- Creating the default entry changes the answer for the empty domain when `*.` is registered
  (`ServiceEntry.AnswersStable`, `ServiceEntry.AnswerMoves`).
- One stray octet behind the SVCB parameters is accepted (`Svcb.ParseExactly`,
  `Svcb.StrayOctetHappens`), and so are labels of more than 63 octets and empty ALPN values
  (`Svcb.LaxerThanTheStandard`).

## Model

| member | source | states |
|---|---|---|
| `Text.FindAnyOf` | src/http/message.cpp:56 | the search finds the first index holding one of the characters, or none does |
| `Text.FindCrlf` | src/http/message.cpp:23 | the search finds the first CR LF, or there is none |
| `Text.CrlfPrefix` | src/http/message.cpp:23-26 | a CR LF found in a prefix is the one found in the longer octets; one found only in the longer ends behind the prefix |
| `Text.TrimRight` | src/http/message.cpp:65-67 | the longest prefix that does not end in a blank |
| `Text.LowerIgnoresCase` | src/http/message.cpp:61-62 | two texts are lowered to the same one if and only if they differ in nothing but the case of the letters A to Z, told by character codes |
| `Text.LowerHasNoCapital` | src/http/message.cpp:61-62 | no lowered text holds a character from A to Z, and one without any is left as it is |
| `Text.ContainsMeaning` | src/http/message.cpp:77 | a text contains another if and only if it is something, then that text, then something |
| `Text.ReadNumber` | src/http/message.cpp:36 | `stoi` and `stol`: blanks, a sign and, in base 16, 0x are skipped, digits in either case make the number, and what is behind them does not matter; exactly the ranges of the types are accepted |
| `Text.NoNumber` | src/http/message.cpp:36 | blanks, a sign or none, and then something that is no digit: the conversion throws |
| `Text.RangesExactly` | src/http/message.cpp:36 | `stoi` accepts exactly what `stol` would read within 32 bits, and `stol` what fits in 64 |
| `Text.ReadDigits` | src/http/message.cpp:36 | `stoi` and `stol` read back what was written in base 10 or 16, for every number |
| `Text.ReadSignedDigits` | src/http/message.cpp:36 | blanks in front are skipped, a sign is honoured and the number read back, for every number |
| `HttpMessage.Parse` | src/http/message.cpp:180-205 | a call takes whole units from the front until none is complete and never reports more than it was offered |
| `HttpMessage.TrailersPrefix` | src/http/message.cpp:139-151 | a trailer block seen in part assigns some of the fields the whole block assigns; a closed or broken one stays so when more octets follow |
| `HttpMessage.AssignPartThenAll` | src/http/message.cpp:139-151 | assigning some of the fields and then all of them is assigning all of them |
| `HttpMessage.ChunkPrefix` | src/http/message.cpp:153-178 | what the chunk loop decides on a prefix stands when more octets follow; when it waits, the trailer fields stored meanwhile change nothing |
| `HttpMessage.UnitPrefix` | src/http/message.cpp:180-205 | the same for every unit, a body with a length excepted |
| `HttpMessage.ParseBody` | src/http/message.cpp:91-103 | a body with a length takes the whole offer and is complete exactly when nothing remains |
| `HttpMessage.BodyOffer` | src/http/message.cpp:91-103 | a body with a length may be offered in two pieces |
| `HttpMessage.OfferPrefix` | src/http/message.cpp:180-205 | offering any prefix and then all that was left unused ends as one call on everything, also when a trailer block is seen in part and read again from its chunk header |
| `HttpMessage.OffersStayOnCourse` | src/http/message.cpp:180-205 | after any calls on any prefixes of what is left, one call on the rest would finish as one call on the whole stream |
| `HttpMessage.FragmentationIndependence` | src/http/message.cpp:180-205 | any sequence of offers, until all is offered, ends in the message and the count of one single call |
| `HttpMessage.ParseSettles` | src/http/message.cpp:180-205 | offering again what a call left unused changes nothing and uses nothing |
| `HttpParser.FieldInView` | src/http/message.cpp:56-67 | searching colon and value in the whole view finds what searching the line finds |
| `HttpParser.StatusInView` | src/http/message.cpp:27-37 | searching the spaces in the whole view finds what searching the line finds, when the line has both |
| `HttpParser.Message.ProcessStatus` | src/http/message.cpp:20-41 | the status line is dropped and its code and reason stored; all error branches |
| `HttpParser.Message.ProcessHeader` | src/http/message.cpp:43-72 | a header line is dropped and stored under its lower-case name (see `HttpHeaders.NamesInAnyCase`), the last line of a name counting; blank, incomplete and colonless lines |
| `HttpParser.Message.CheckBodyType` | src/http/message.cpp:74-89 | decides once between chunked, a length and no body, or throws |
| `HttpParser.Message.ReadStatus` | src/http/message.cpp:180-188 | the status line is read unless it was before; the call ends there when it throws or there is still no status |
| `HttpParser.Message.ReadBody` | src/http/message.cpp:91-103 | the whole view goes into the body and the remaining length is reduced modulo 2^64 |
| `HttpParser.Message.ReadBodyChunkHeader` | src/http/message.cpp:105-120 | the size line is dropped and its size, up to an extension, returned |
| `HttpParser.Message.ReadBodyChunkNormal` | src/http/message.cpp:122-137 | a chunk is taken only whole and with two more octets; the count is modulo 2^32 |
| `HttpParser.Message.ReadBodyChunkFinal` | src/http/message.cpp:139-151 | all complete trailer lines are stored, the count is 0 unless the block is closed; the loop ends unless a line lacks its colon |
| `HttpParser.Message.ReadBodyChunked` | src/http/message.cpp:153-178 | the chunk loop leaves the message and the count of taking units until none is complete |
| `HttpParser.Message.Process` | src/http/message.cpp:180-205 | one call leaves the message and returns the count of taking units until none is complete |
| `HttpRender.RenderHeader` | src/http/message.cpp:227-233 | every field once, in the order of iteration, and the blank line |
| `HttpRender.ListedFieldsAreTheMap` | src/http/message.cpp:227-233 | the fields written make up the map again, whatever the order |
| `HttpRender.AsMapHolds` | src/http/message.cpp:43-72 | of several fields of one name the last counts |
| `HttpRender.FieldReadsBack` | src/http/message.cpp:43-72 | a field with its name in any case and a trimmed one-line value is read back, stored under the lower-case name |
| `HttpRender.RenderedHeaderIsBack` | src/http/message.cpp:227-233 | what is written of a header whose names hold no capital is that header when read back |
| `HttpRender.HeaderReadsBack` | src/http/message.cpp:43-72 | the header phase reads back all fields, names in any case, and stops behind the blank line |
| `HttpRender.HeadReadsBack` | src/http/message.cpp:20-72 | status line and header put a fresh parser in front of the body with everything restored |
| `HttpWellFormed.StatusLineExactly` | src/http/message.cpp:27-37 | a line is read as a status, with a code and a reason, if and only if it is a version, a space, a number other than -1, a space and that reason |
| `HttpWellFormed.MalformedExactly` | src/http/message.cpp:20-178 | a unit is refused if and only if it is one of those listed above, in the phase in which it comes |
| `HttpRender.ChunksReadBack` | src/http/message.cpp:105-137 | chunks in the coding of section 7.1 of RFC 9112, the size in digits of either case and with an extension or not, are appended to the body in order |
| `HttpRender.LooseChunkReadsBack` | src/http/message.cpp:122-137 | a chunk not followed by CR LF is taken all the same, once two more octets are there, which are left for the next |
| `HttpRender.SizeReadsBack` | src/http/message.cpp:105-120 | a chunk size in hexadecimal digits of either case, with an extension or not, is the size it stands for |
| `HttpRender.LastChunkReadsBack` | src/http/message.cpp:139-178 | the last chunk and its trailer block complete the message and are consumed to their last octet |
| `HttpRender.ChunkedResponseReadsBack` | src/http/message.cpp:20-178 | a whole chunked response, field names in any case: status, header with trailers under lower-case names, body; complete; exactly its octets consumed whatever follows |
| `HttpRender.SizedResponseReadsBack` | src/http/message.cpp:20-103 | the same for a response with a Content-Length or without a body |
| `HttpHeaders.NamesInAnyCase` | src/http/message.cpp:43-72 | two header lines whose names differ only in the case of letters are the same field |
| `HttpHeaders.StoredNamesAreLower` | src/http/message.cpp:61-68 | a call on well-formed octets never stores a field or trailer name with a letter A to Z |
| `HttpHeaders.PaddedValue` | src/http/message.cpp:63-68 | a value is stored without the blanks and tabs (octets 32 and 9) around it, however many |
| `HttpHeaders.BodyAnnounced` | src/http/message.cpp:74-89 | "chunked" anywhere in the transfer encoding selects the chunked body; a transfer encoding without it selects none and nothing is taken ever after; else the length, a negative one modulo 2^64, or the exception; else no body |
| `HttpHeaders.PartialTrailersAreStored` | src/http/message.cpp:139-151 | the trailer fields of a block seen in part are stored although nothing is consumed |
| `HttpLimits.HeaderLoopEnds` | src/http/message.cpp:189-195 | the header loop turns for ever if and only if lines that hold a colon or a stray CR or LF are followed by a complete line that holds none and is not blank |
| `HttpLimits.HeaderLoopTurnsForEver` | src/http/message.cpp:56-60 | a header for which it never ends, and one with a stray LF for which it does |
| `HttpLimits.BodyEndsWhereItShould` | src/http/message.cpp:91-103 | a body that ends inside the octets offered is recognised, and the rest left, if and only if nothing follows it or it was over before |
| `HttpLimits.BodyOffersExactly` | src/http/message.cpp:91-103 | over any sequence of offers, a body followed by other octets is read right if and only if no offer straddles its end |
| `HttpLimits.BodyOverrun` | src/http/message.cpp:93-97 | a concrete message for which it is not |
| `HttpLimits.ChunkCountExactly` | src/http/message.cpp:122-137 | the count reported for a chunk is that of the octets dropped if and only if those, CR LF included, are fewer than 2^32 |
| `HttpLimits.ChunkCountWraps` | src/http/message.cpp:122-137 | any chunk of 2^32 - 2 octets: reported as nothing with its CR LF, right without |
| `HttpLimits.StatusLineStable` | src/http/message.cpp:27-37 | for any octets with a complete line: what is read from the status line is independent of the octets behind it if and only if the line has both its spaces |
| `HttpLimits.StatusLineUnstable` | src/http/message.cpp:27-37 | a status line for which it is not: the next line becomes the reason |
| `HttpLimits.MinusOneEndsTheCall` | src/http/message.cpp:180-188 | a status line with code -1 is dropped and the call ends with the status unread, whatever is behind it |
| `Session.Drained` | src/session.cpp:76-78 | draining drops exactly the first octets, across segments |
| `Session.Session.CloseSession` | src/session.cpp:212-225 | put off while a task is in flight or output is pending; else the bufferevent goes |
| `Session.Session.UseOctets` | src/session.cpp:76-78 | the octets used leave the buffer |
| `Session.Session.Run` | src/session.cpp:113-128 | one `process` task: done with a count, suspended and in flight, or thrown and closed |
| `Session.Session.OnReadable` | src/session.cpp:96-163 | both loops end, and leave the state of offering the contiguous head and then the whole |
| `Session.Session.ProcessingComplete` | src/session.cpp:80-94 | the suspended task's count is drained and a close that was put off retried |
| `SessionRuns.TurnKeeps` | src/session.cpp:111-131 | one offer of a prefix of the unread octets keeps conservation, and a suspension leaves exactly one task in flight |
| `SessionRuns.NextKeeps` | src/session.cpp:76-171 | every event keeps the invariant |
| `SessionRuns.EveryReachableState` | src/session.cpp:76-163 | in every reachable state: received is consumed and buffer; each call was offered the unread stream where the one before left it; at most one task in flight and nothing drained meanwhile |
| `SessionRuns.ReadCbLeavesNothing` | src/session.cpp:111-162 | `read_cb` returns with a task in flight, after an exception, or with the buffer empty or just offered whole and of no use |
| `SessionEffects.TurnEffect` | src/session.cpp:119-137 | one call of `process`: the octets it used leave the buffer, a suspension puts a task in flight, an exception closes unless output is pending |
| `SessionEffects.ReadCbEffect` | src/session.cpp:96-163 | `read_cb` does nothing while a task is in flight; otherwise it offers the contiguous head first, goes on behind used octets as if called anew, and offers the whole only after a head of no use with more behind it |
| `SessionEffects.CompleteEffect` | src/session.cpp:80-94 | at the end of a suspended task the octets it used leave the buffer, and the rest stays unless the session is closed |
| `SessionEffects.ClosedBy` | src/session.cpp:80-94 | when each event closes the session: a request unless a task is in flight or output pending; the end of the task if a close was put off, or it threw, unless output is pending; drained output if a close was put off and nothing is in flight; `read_cb` if `process` threw and no output is pending |
| `SessionEffects.ForgottenExactly` | src/session.cpp:119-137 | a close is forgotten if and only if `process` asks for it in a call it finishes at once with a count while no output is pending |
| `SessionEffects.ClosesAreRetried` | src/session.cpp:212-231 | over every run of a `process` that asks for a close only in calls that suspend or throw: a close put off always has a task in flight or pending output to be retried by |
| `SessionEffects.CloseForgottenHappens` | src/session.cpp:119-142 | a session left open with its close forgotten |
| `HttpSession.HTTPSession.Process` | src/http/client.cpp:23-33 | the parser is called, a complete message resolves `ready` and is handed over once |
| `HttpSession.ParseKeepsShape` | src/http/message.cpp:180-205 | a complete message has a finished body or a last chunk |
| `HttpSession.CompleteTakesNothing` | src/http/message.cpp:153-205 | a complete message takes nothing more |
| `HttpSession.ProcessStaysOnCourse` | src/http/client.cpp:23-33 | one call on the octets that come next keeps the response on course to that of a single call, delivered at most once |
| `HttpSession.RunTracks` | src/session.cpp:96-163 | so does every run of packets and read events |
| `HttpSession.EndToEnd` | src/session.cpp:96-163 | whatever the packets, read events and segments: once `read_cb` has run after the last packet, exactly the octets of the message are consumed and the response is the one a single call reads from all octets received |
| `HttpDelivery.ChunkedResponseDelivered` | src/http/client.cpp:23-33 | a chunked response sent in any packets is delivered once, as it was written, and what follows stays in the buffer |
| `HttpDelivery.SizedResponseDelivered` | src/http/client.cpp:23-33 | the same for a response with a Content-Length |
| `CoroutineInvariants.EnterKeeps` | include/covent/coroutine.h:486-507 | resuming what may be resumed keeps the invariant, inline or through its loop's queue |
| `CoroutineSteps.BlockedKeeps` | include/covent/coroutine.h:339-355 | a suspended await keeps it; the child's parent is the wrapper |
| `CoroutineSteps.EndedKeeps` | include/covent/coroutine.h:117-138 | a finished task leaves its outcome to the wrapper that awaits it |
| `CoroutineSteps.SettledKeeps` | include/covent/future.h:19-87 | a resolved future leaves its value to a waiter that is alive |
| `CoroutineSteps.OneMoreLinkKeepsAcyclic` | include/covent/coroutine.h:339-355 | a new await link closes no cycle unless the child already waits for the awaiter |
| `CoroutineSteps.DestroyKeeps` | include/covent/coroutine.h:567-572 | destroying a frame together with the tasks it awaits keeps the invariant: pending resumptions of them do nothing |
| `CoroutineRuns.StepKeeps` | include/covent/coroutine.h:339-355 | every step an allowed action takes meets its preconditions (nobody running, finished, destroyed or waiting is resumed) and keeps the invariant |
| `CoroutineRuns.EveryReachedState` | include/covent/coroutine.h:117-138 | in every state the runtime can reach, destructions of whole groups of waiting tasks included: exactly the running coroutines are on their threads, each once; queues hold what can be resumed and belongs there, and all of it; await links agree at both ends; deliveries are right; await links are acyclic |
| `CoroutineRuns.LoopAffinity` | include/covent/coroutine.h:486-507 | in every reachable state, over any number of loops, a coroutine runs only on the thread of its own loop |
| `CoroutineRuns.OneAwaiter` | include/covent/coroutine.h:339-355 | in every reachable state a task has at most one awaiter through `task_awaiter`, and what is awaited exists and has not finished: no wakeup is lost |
| `CoroutineRuns.OutcomesAreFinal` | include/covent/coroutine.h:421-449 | no step changes an outcome or a result once set |
| `CoroutineRuns.OnlyFuturesHoldUp` | include/covent/coroutine.h:117-130 | the await links of a suspended task end, when nothing runs or is queued, at a future nobody resolved |
| `CoroutineRuns.QuietMeansOpenFutures` | include/covent/coroutine.h:117-130 | the same in every reachable state: nobody is stuck for any other reason |
| `CoroutineRuns.ResolveEitherWay` | include/covent/future.h:19-87 | whether resolve precedes or follows await, the awaiter goes on once with the value and nothing else differs but that it had to wait |
| `CoroutineEffects.StartEffect` | include/covent/coroutine.h:542-550 | a task started on its own loop's thread runs there and then with nothing queued; one of another loop is queued on exactly that loop |
| `CoroutineEffects.AwaitTaskEffect` | include/covent/coroutine.h:328-355 | an await of a finished task goes on at once with its result, of one awaited already with the error; any other leaves the thread, and a task not begun is begun, on this thread or through its own loop's queue |
| `CoroutineEffects.ReturnEffect` | include/covent/coroutine.h:117-138 | a task that ends leaves its thread; whoever awaits it, if of this loop, is on top of the thread, running, with the outcome taken and all queues as before; if of another loop, exactly that loop's queue gains it; if nobody awaits it that is all |
| `CoroutineEffects.AwaitFutureEffect` | include/covent/future.h:32-70 | an await of a resolved future goes on at once with its value; any other leaves the thread |
| `CoroutineEffects.ResolveEffect` | include/covent/future.h:19-87 | whoever awaits the future goes on, above the resolver with the queues as before if of the resolver's loop, else as one more entry in exactly its own loop's queue; if nobody awaits it only the value is stored |
| `CoroutineEffects.ResetThenAwaitWaits` | include/covent/future.h:72-78 | after a reset nothing but the future has changed and the next await of it waits |
| `CoroutineEffects.SleepEffect` | include/covent/sleep.h:22-31 | a sleeper leaves its thread and is the last entry of its own loop's queue |
| `CoroutineEffects.DispatchEffect` | include/covent/coroutine.h:495-505 | a deferred resumption leaves the queue and its coroutine runs alone on the thread, with the answer it waited for; a destroyed one is passed over |
| `CoroutineAnswers.StepChanges` | include/covent/coroutine.h:339-355 | a step adds an await or answers one only as that await, return or resolve says |
| `CoroutineAnswers.DeliveredOnce` | include/covent/coroutine.h:421-449 | in every reachable state an await that had to wait is answered with exactly its task's outcome; one that had not, with that or, only if an earlier await had to wait for the same task, with the error of a second await; an await of a future with its epoch's value; the answer is taken at most once, and not yet taken means queued on the awaiter's loop or the awaiter destroyed |
| `CoroutineAnswers.RefusedExactly` | include/covent/coroutine.h:339-346 | an await of an unfinished task is refused if and only if somebody is waiting for it at that moment; otherwise it waits |
| `CoroutineLimits.CycleExactly` | include/covent/coroutine.h:339-355 | an await closes a cycle if and only if the task awaited waits for the awaiter already |
| `CoroutineLimits.StartThenAwaitExactly` | include/covent/coroutine.h:486-507 | an await keeps the queues sound if and only if no start of the task is pending on another loop |
| `CoroutineLimits.SecondAwaiterExactly` | include/covent/future.h:55-63 | an await of a future keeps the links sound if and only if nobody waits for it already |
| `CoroutineLimits.StartExactly` | include/covent/coroutine.h:542-550 | what could be resumed may be started if and only if it was not begun and no start of it is pending |
| `CoroutineLimits.DestroyExactly` | include/covent/coroutine.h:567-572 | frames may be destroyed together, links and threads staying sound, if and only if none runs and with each go the task it waits for and whoever waits for it |
| `CoroutineLimits.PendingStartHappens` | include/covent/coroutine.h:486-507 | a reachable state with a start pending that the next await does not see |
| `CoroutineLimits.CycleHappens` | include/covent/coroutine.h:339-355 | a reachable state in which an await would close a cycle, and in which a task cannot be destroyed alone |
| `CoroutineLimits.SecondAwaiterHappens` | include/covent/future.h:55-63 | a reachable state in which a second coroutine is about to await a future |
| `CoroutineRuntime.Runtime.ResumeHandle` | include/covent/coroutine.h:486-507 | inline on the own loop, else one more entry in that loop's queue |
| `CoroutineRuntime.Runtime.Start` | include/covent/coroutine.h:542-550 | `start` is the machine's step |
| `CoroutineRuntime.Runtime.CoAwait` | include/covent/coroutine.h:328-355 | an await is the machine's step: result at once, double await, or suspended under the wrapper |
| `CoroutineRuntime.Runtime.FinalSuspend` | include/covent/coroutine.h:117-138 | final suspend is the machine's step, which is what `CoroutineEffects.ReturnEffect` says |
| `CoroutineRuntime.Runtime.FutureAwait` | include/covent/future.h:32-63 | awaiting a future is the machine's step |
| `CoroutineRuntime.Runtime.FutureResolve` | include/covent/future.h:19-87 | resolving is the machine's step, which is what `CoroutineEffects.ResolveEffect` says |
| `CoroutineRuntime.Runtime.FutureReset` | include/covent/future.h:72-78 | reset is the machine's step: a resolved future begins a new epoch, any other is left alone |
| `CoroutineRuntime.Runtime.DestroyTasks` | include/covent/coroutine.h:567-572 | destruction of a frame with what it owns is the machine's step |
| `CoroutineRuntime.Runtime.RunDeferred` | include/covent/coroutine.h:495-505 | a deferred resumption is the machine's step; it does nothing when the coroutine is gone |
| `CoroutineRuntime.Runtime.Sleep` | include/covent/sleep.h:22-31 | sleeping is the machine's step |
| `Gather.NextKeeps` | include/covent/gather.h:33-45 | every start and every completion keeps the invariant |
| `Gather.SequentialIsStable` | include/covent/gather.h:40-45 | what the sequential map has decided no later completion changes |
| `Gather.SequentialMeaning` | include/covent/gather.h:40-45 | the sequential map yields all values in place, or the first exception in order, or waits for a task |
| `Gather.GatherIsSequentialMap` | include/covent/gather.h:33-45 | for every interleaving, of the tasks and the order given: nothing is awaited before all are started, and from then on the answer is at every moment that of the sequential map; success exactly when all have succeeded, value i being child i's; else the first exception in order; an answer once all have completed |
| `GatherRuntime.StepKeepsGathering` | include/covent/gather.h:33-45 | every step of the program keeps what is true of `gather`'s coroutine: children awaited in turn, by it alone, the next only after a value |
| `GatherRuntime.AwaitTells` | include/covent/gather.h:40-45 | what an await of `gather` was given is how its child ended; while it waits the child has not ended |
| `GatherRuntime.GatherOnTheRuntime` | include/covent/gather.h:33-45 | from any reachable state in which a coroutine begins the body of `gather`, among whatever else the program does, and as far as the runtime bears its moves (see `GatherProgress.NextMoveExactly`): no child is awaited before all are started; each await is given how its child ended; while it waits the sequential map has no answer; when it has ended, it has ended as the map does |
| `GatherProgress.NextMoveExactly` | include/covent/gather.h:33-45 | the runtime bears `gather`'s next move if and only if: a child to be started exists, was not begun and is not queued; a child to be awaited exists, does not wait for `gather` and has no start pending, `gather`'s own included |
| `GatherProgress.RemoteChildHappens` | include/covent/gather.h:33-45 | a reachable state from which `gather` alone, with one child of another loop, comes to an await the runtime does not bear: the child is queued twice |
| `GatherProgress.GatherGoesOn` | include/covent/gather.h:33-45 | over every run in which nobody else starts or destroys its children: with unbegun children on its own loop, whenever `gather` is on top of its thread it can make its next move, if and only if that is not to await a child that waits for `gather` |
| `GatherProgress.StepUntouched` | include/covent/coroutine.h:486-507 | a begun task stays begun and on its loop through every step; one neither begun nor queued stays so unless the step is about it |
| `Gather.Gatherer.AwaitOnward` | include/covent/gather.h:40-45 | the awaiting loop goes on to the next suspended task, the first exception or the end |
| `Gather.Gatherer.TaskCompletes` | include/covent/gather.h:33-45 | a completion takes the coroutine as far as the state function says |
| `Race.FirstDoneMeaning` | include/covent/gather.h:106-121 | the first task in argument order that is done and accepted, or done with an exception, is found, or there is none |
| `Race.NextKeeps` | include/covent/gather.h:123-154 | every event keeps the invariant of the race |
| `Race.EveryRace` | include/covent/gather.h:123-154 | in every run the racer wakes at most once; while it sleeps every task points at the dummy and the timer is armed if there is one; after the race no task points at the dummy and no timer is left; a sleeping pack has missed no winner |
| `Race.WakingDecides` | include/covent/gather.h:123-154 | only a completion or the timer wakes the racer, and then the first done and accepted task decides, else it is a timeout |
| `Race.StartingEffect` | include/covent/gather.h:70-76 | while a race is being started a task started before is passed over and any other started, a container being over if it is done at once; a completion is only noted |
| `Race.ParkingEffect` | include/covent/gather.h:127-145 | with all tasks started a pack that has a winner is over with it, and any other race sleeps with every task under the dummy |
| `Race.EverythingWakes` | include/covent/gather.h:81-154 | for both kinds: in a sleeping race every task that is not done can complete, and each completion, and the timer, wakes the racer once and ends the race with all tasks detached |
| `Race.RaceResult` | include/covent/gather.h:68-154 | over every run: a race returns what decided at the one event that ended it: asleep, the first task done and accepted, or thrown, or else a timeout; a pack before it slept, the same look; a container, a task done as soon as it was started |
| `Race.EveryResultIsSound` | include/covent/gather.h:68-154 | over every run: a value returned is one a task ended with, and accepted unless a container took it at once; an exception is one a task threw; a timeout comes only after a wake |
| `Race.RejectedValueExactly` | include/covent/gather.h:72-76 | a container returns a rejected value if and only if a task not started before completes with it as soon as it is started |
| `Race.RejectedValueHappens` | include/covent/gather.h:72-76 | a race that returns a value its predicate rejects |
| `Race.StuckExactly` | include/covent/gather.h:77-91 | nothing can change a sleeping race if and only if it has no timer and every task is done |
| `Race.SleepsForEver` | include/covent/gather.h:128-145 | a pack without a timeout whose only task completes at once with a rejected value sleeps for ever |
| `Race.RejectedFinisherEndsTheRace` | include/covent/gather.h:143-153 | in a sleeping pack a finisher wins if and only if it is accepted, and otherwise ends the race as timed out |
| `Race.ContainerSleepsOnWinner` | include/covent/gather.h:68-103 | over every run: a container sleeps on a winner if and only if a task handed in was done already and would win, or one that would win completed while the race was being started |
| `Race.SleepingOnWinnerHappens` | include/covent/gather.h:68-91 | a container that sleeps on a task handed in finished |
| `Race.EarlyTimeoutHappens` | include/covent/gather.h:138-153 | a race that times out on its first finisher with another task on its way |
| `Race.Racer.SetParents` | include/covent/gather.h:137-145 | the loop overwrites the parent of every task and nothing else |
| `Race.Racer.GoToSleep` | include/covent/gather.h:127-143 | a pack with a winner is over, anything else sleeps under the dummy with its timer |
| `Race.Racer.WakeUp` | include/covent/gather.h:144-153 | tasks detached, winner or timeout |
| `Scheduler.LessIsEarlier` | include/covent/loop.h:23-29 | for normalised times the comparison is that of microseconds |
| `Scheduler.DeadlineIsExact` | src/covent.cpp:129-139 | a deadline is normalised and exactly now plus the delay |
| `Scheduler.DelayIsExact` | src/covent.cpp:148-154 | a delay in seconds is scheduled as its whole microseconds |
| `Scheduler.InsertKeepsOrder` | src/covent.cpp:140 | inserting behind equal deadlines keeps the order by deadline and insertion |
| `Scheduler.WholeRunInOrder` | src/covent.cpp:54-74 | over a whole run, whatever running actions defer, actions run in order of deadline and insertion, across batches; none is lost or run twice; each was due |
| `Scheduler.DeferEffect` | src/covent.cpp:129-140 | exactly one entry is new: numbered next, due at the reading of the clock plus the delay to the microsecond; all others as before |
| `Scheduler.BatchEffect` | src/covent.cpp:57-69 | a batch is exactly what was due before the reading, in order, and what stays was not |
| `Scheduler.DeferredNotEarly` | src/covent.cpp:54-74 | over every run: what an event deferred is there once under its number, due after its delay counted from the reading at its `defer`, and has not left the map before a reading behind that |
| `Scheduler.Loop.Defer` | src/covent.cpp:129-146 | exactly one more entry, due at the reading plus the delay; the machine's step |
| `Scheduler.Loop.SetNextBreak` | src/covent.cpp:106-127 | true exactly when a head exists and is not later than now; else the interval is the exact difference, its microseconds 1 to 1000000 |
| `Scheduler.Loop.TakeDue` | src/covent.cpp:57-69 | the actions strictly before now leave the map in order |
| `Scheduler.Loop.RunOnce` | src/covent.cpp:54-74 | the loop is a run of the machine: at the reading of each turn a batch is taken and every action in it run, with what it defers, up to the first turn that finds nothing due, or the turns have run out |
| `SrvLookup.Merge` | src/service.cpp:198-211 | the records of the admitted answers, in the order of the answers |
| `SrvLookup.AdmittedExactly` | src/service.cpp:198-209 | a record is merged as often as it occurs in answers that are validated, or in all when validation is not asked for |
| `SrvLookup.SelectedInGroup` | src/service.cpp:227-237 | a draw up to the group's weight selects inside the first priority group |
| `SrvLookup.DrawsPerRecord` | src/service.cpp:227-237 | each record of the group is selected by exactly its weight in draws, the first by one more |
| `SrvLookup.PassByDraw` | src/service.cpp:228-237 | in a group with weight a pass yields the record up to which the weights first add up to the draw, and leaves the others in their order |
| `SrvLookup.LeadsExactly` | src/service.cpp:216-238 | of all records handed out the one whose share holds the draw comes first, and no other |
| `SrvLookup.LeadingDrawsAreWeights` | src/service.cpp:216-238 | of the total + 1 draws as many as its weight hand out a record of the first priority before all others, one more for the first, and none a record of a later priority |
| `SrvLookup.OnlyTheDrawCounts` | src/service.cpp:228-237 | what comes first depends on nothing but the draw of the first pass |
| `SrvLookup.FirstIsFavoured` | src/service.cpp:227-237 | of two records of weight 1 the first is selected by two draws of three |
| `SrvLookup.PassMoves` | src/service.cpp:217-238 | a pass yields one record or two, moved from what is left, before any of a later priority |
| `SrvLookup.FallThroughIgnoresWeights` | src/service.cpp:223-237 | behind a group without weight the next record is the first of what is left |
| `SrvLookup.SecondRecordExactly` | src/service.cpp:223-238 | a pass yields a second record if and only if the first group has no weight and there is one |
| `SrvLookup.FallThroughHappens` | src/service.cpp:223-238 | behind a record without weight a record of weight 1 always comes before one of weight 100 and the same priority |
| `SrvLookup.DrainIsSortedPermutation` | src/service.cpp:217-238 | for every sequence of draws: a permutation, in non-decreasing priority order |
| `SrvLookup.PickByCountdown` | src/service.cpp:229-236 | counting the draw down picks the first record whose running sum reaches it |
| `SrvLookup.GroupWeight` | src/service.cpp:218-222 | the weights of the first priority group are added up |
| `SrvLookup.Drain` | src/service.cpp:217-238 | the loop ends, with exactly the records given, by priority |
| `SrvLookup.Lookup` | src/service.cpp:197-239 | what is handed out holds each record as often as the admitted answers do, by priority, for every draw and every outcome of the sort; drained as `SrvLookup.LeadingDrawsAreWeights` says |
| `Svcb.RoundTrip` | src/dns/dns.cc:106-151 | what is written in the layout of section 2.2 of RFC 9460, laxer limits included, is parsed back |
| `Svcb.ParseExactly` | src/dns/dns.cc:106-151 | an RDATA is accepted, with a given record, if and only if it is that record in this format, keys strictly increasing and lengths filled exactly, with at most one stray octet behind |
| `Svcb.EveryOctet` | src/dns/dns.cc:106-151 | one RDATA octet by octet: big-endian priority, labels, ALPN under key 1, port under key 3, another key |
| `Svcb.StrayOctetHappens` | src/dns/dns.cc:113-119 | an RDATA with one octet too many that is accepted |
| `Svcb.LaxerThanTheStandard` | src/dns/dns.cc:85-136 | labels of more than 63 octets and empty ALPN values are accepted, which the standard's format does not have |
| `Svcb.KeysIncrease` | src/dns/dns.cc:120-122 | the keys of accepted fields strictly increase |
| `Svcb.ValuesRead` | src/dns/dns.cc:124-136 | the ALPN values fill the declared length exactly |
| `Svcb.RecordReadsBack` | src/dns/dns.cc:106-151 | every record the format can hold is parsed back from its encoding by ascending key |
| `Svcb.Stream.ReadUint16` | include/covent/dns.h:68-76 | two octets, big-endian, or the exception and the end of the stream |
| `Svcb.Stream.ReadString8` | include/covent/dns.h:78-90 | a string behind its length octet, or the exception |
| `Svcb.Stream.ReadString16` | include/covent/dns.h:78-90 | a string behind its two length octets, or the exception |
| `Svcb.Stream.ReadHostname` | src/dns/dns.cc:85-93 | the labels up to the empty one, a dot behind each, a lone dot for the root |
| `Svcb.Stream.ReadAlpn` | src/dns/dns.cc:124-136 | the loop ends and adds exactly the values that fill the length, or throws |
| `Svcb.Stream.ReadParams` | src/dns/dns.cc:111-150 | the parameter loop stores exactly the accepted fields, or throws |
| `Svcb.ParseRdata` | src/dns/dns.cc:106-151 | the whole parser: the record of the accepted wire format, or the exception |
| `PathTemplate.SplitOfJoin` | src/http/server.cpp:45-59 | splitting at slashes gives back parts that hold none |
| `PathTemplate.JoinOfSplit` | src/http/server.cpp:45-59 | joining the parts gives back the path |
| `PathTemplate.PathSegmentIterator.constructor` | src/http/server.cpp:27-32 | the iterator is about to yield the split of the path without one leading slash |
| `PathTemplate.PathSegmentIterator.Next` | src/http/server.cpp:37-59 | the next segment; what is left is the rest of the split |
| `PathTemplate.CompileTemplate` | src/http/server.cpp:97-134 | the compiled segments of the template, in order |
| `PathTemplate.ShortForm` | src/http/server.cpp:104-118 | `{name}` is `{name:str}` |
| `PathTemplate.TemplateReadsBack` | src/http/server.cpp:97-134 | templates written out compile back; exactly the writable segment lists come from a template |
| `PathTemplate.MatchCompiled` | src/http/server.cpp:62-94 | a match exactly when counts and literals agree; then `pre` overlaid with the bindings |
| `PathTemplate.BindingsMeaning` | src/http/server.cpp:77-81 | a name is bound exactly when it occurs, to the part of its last occurrence |
| `PathTemplate.FirstThrowing` | src/http/server.cpp:154-158 | the middleware found throws and none before it does; none is found exactly when none throws |
| `PathTemplate.RenderThenMatch` | src/http/server.cpp:62-94 | matching a rendered path gives exactly the values it was rendered from over `pre`; without the leading slash exactly when the rendered path does not begin with one |
| `PathTemplate.MatchThenRender` | src/http/server.cpp:62-94 | a match renders again to its path, up to one leading slash, if and only if no name was bound to two different parts |
| `PathTemplate.RouteMeaning` | src/http/server.cpp:154-172 | the endpoint's middleware first, which may refuse; then the endpoint itself if its template fits, else the first child whose template fits, behind its middleware, else not found; deeper children never matter |
| `PathTemplate.DeepChildIsNotFound` | src/http/server.cpp:154-172 | an endpoint below a child that fits the request and is not found |
| `ServiceEntry.ChosenMeaning` | src/service.cpp:35-52 | the exact name, else the wildcard of the longest dot-suffix that has one, the whole domain included, else the default |
| `ServiceEntry.CreatedAtMostOnce` | src/service.cpp:49-53 | however many look-ups, only the default entry is created and only once |
| `ServiceEntry.AnswersStable` | src/service.cpp:35-54 | creating the default changes no answer, except the empty domain's when `*.` is registered and the default was not |
| `ServiceEntry.AnswerMoves` | src/service.cpp:35-54 | a registry whose answer for the empty domain changes after another look-up |
| `ServiceEntry.Service.Add` | src/service.cpp:18-25 | a new entry under a free name, an exception for a taken one |
| `ServiceEntry.Service.EntryFor` | src/service.cpp:35-54 | the loop ends with the chosen entry; the registry grows by the default at most |

## Left out

- HttpMessage.Parse: yields nothing on octets that are not `WellFormed`, where the source returns a count, throws or loops; `HttpLimits` says what happens for four of the kinds.
- HttpParser.Message.Process: is for `WellFormed` octets only, as above.
- HttpParser.Message.ReadBodyChunked: is for `WellFormed` octets only, as above.
- HttpParser.Message.ReadBodyChunkFinal: leaves out a trailer block with a line on which the source's loop never ends.
- HttpParser.Message.ReadBodyChunkNormal: leaves out sizes within two of 2^64, which only the chunk sizes -1 and -2 give: the source then drops more of a view than it has, which has no defined meaning.
- HttpDelivery.SizedResponseDelivered: nothing may follow a non-empty body, because the parser may swallow it (see `HttpLimits.BodyOffersExactly`).
- SessionEffects.ClosesAreRetried: is for a `process` that asks for a close only in calls that suspend or throw; for any other it fails as `SessionEffects.ForgottenExactly` says.
- Session.Session.CloseSession: the flush and the removal of the session from its loop, which repeated `close` can defer several times, are not modelled.
- HttpSession.EndToEnd: says nothing while no read event follows the last packet, because `processing_complete` drains but does not call `read_cb`.
- HttpSession.HTTPSession.Process: is for `WellFormed` octets only; the awaiting coroutine is modelled as taking the message inside `resolve`, which is what `Client` does on one loop; nothing else it might do to the session is modelled.
- HttpRender.SizedResponseReadsBack: nothing may follow a non-empty body, because the parser swallows it (see `HttpLimits.BodyEndsWhereItShould`).
- Session: `eject`, `event_cb` and TLS filters are not modelled; freeing the bufferevent loses what it held.
- Coroutines: a wrapper's tail (storing the value, `resume`, final suspend) is one atomic step, so the window in which another loop's thread resumes the awaiter before its wrapper is done is not modelled.
- Coroutines: the guards of `Enabled` are obligations of callers the runtime does not check; `CoroutineLimits` proves exact those of starting, awaiting a task, awaiting a future and destroying; that a future is resolved once per reset is only required.
- Coroutines: a group of frames is destroyed in one step; destructors that run other code of the program are not modelled.
- Coroutines: `own_promise`, async generators, `instant_task` awaited directly, the `completed` signal and value categories (move, copy, reference) are not modelled.
- CoroutineRuns.LoopAffinity: is about task bodies entered through `resume_handle`, `sleep` or a future that a task awaits; a coroutine resumed by hand through its handle is outside.
- Race: has a machine of its own, in which the dummy and the racer's wrapper are one step; the rewriting of parents is not a step of the machine in `Coroutines.dfy`.
- Race: values are plain integers, so that the moving `get` is called twice does no harm; tasks have no awaiter but the racer; a racer destroyed while it sleeps is not modelled.
- Gather.GatherIsSequentialMap: that a `gather` over a pack evaluates its awaits in an open order is the parameter `order`.
- GatherRuntime.GatherOnTheRuntime: a move of `gather` the runtime does not bear is left out of the run, where the source makes it all the same; `GatherProgress` says exactly which those are. The values in `gather`'s own result are not packed into one; a result that is a value stands for the tuple or list of the values its awaits were given.
- Scheduler: the wait inside libevent, `loopbreak`, `shutdown`, the mutex and callbacks that throw or re-enter the loop are not modelled.
- Scheduler.Loop.RunOnce: models the action loop for as many turns as clock readings are given, as it need not end when every action defers another.
- Scheduler.DelayIsExact: is over reals; rounding of `double` is not modelled.
- SrvLookup: `int` overflow of the weight sum (more than 32767 records of full weight), resolving, and the generator's suspension at each yield.
- SrvLookup.Lookup: the order inside a priority that `std::sort` leaves open is the parameter `sorted`.
- Svcb: `rr::SRV::parse` and `rr::TLSA::parse` use the same readers in a row and would only add easy members.
- Svcb.RecordReadsBack: labels that hold a dot cannot be told from two labels in the host name, so the labels are given beside the record.
- PathTemplate: converters (`int`, `bool`, `path`) are parsed but the source never applies them; of a middleware only whether it throws is modelled, and the HTTP server around the routing is left out.
- ServiceEntry: entries carry only their name; resolvers, validators, TLS contexts and parents are left out.
- TLS, PKIX, CRL handling, the resolver's calls to unbound, address casts, URI parsing, field references, listeners, logging and tracing are calls into other libraries or plumbing.
