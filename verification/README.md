# Verified model of http2comm

http2comm wraps nghttp2 to give an HTTP/2 client and server. This project models the library's own
logic in Dafny and proves properties of it over all inputs, all interleavings and all runs.

| file | what it models |
|---|---|
| `RequestProtocol.dfy` | one client request: the calling thread, the posted submit, the expiry timer, the response and close handlers |
| `ClientRun.dfy` | a client with any number of requests, its counters, and the one thread of its io context |
| `BlockingSend.dfy` | the callback wrapper of the blocking `send` |
| `Reconnect.dfy` | reconnection by many threads, and the connection status |
| `ServerStream.dfy` | one server stream: its members, its methods, and the threads that share it |
| `StreamSafety.dfy` | what every run of a stream keeps |
| `DelayLaw.dfy` | when a stream replies |
| `ServerRun.dfy` | a server with any number of streams: reception ids and request counters |
| `ChunkMaximum.dfy` | the compare-exchange loop that keeps the largest chunk length |
| `UrlCodec.dfy`, `PathPrefix.dfy` | percent encoding and decoding; prefix matching of paths |
| `JsonCause.dfy`, `HeaderMap.dfy`, `ErrorResponse.dfy` | the body and the headers of an error response |
| `ByteStrings.dfy`, `Sequences.dfy`, `Sums.dfy` | bytes; sequence facts; sums over sequences |

**Form.** Code that changes state is a class whose methods are proved against functions on the value of
its fields, or a method with a loop proved against a recursive specification. Each protocol is a step
system over those same functions, and a run is a sequence of its events in any order that the enabling
conditions allow. Handlers of one client io context are atomic, since one thread serves it
(`src/Http2Connection.cpp:111`); a delayed `async_send` takes several steps and holds that thread. On the server each access to shared members is a step of its own,
except under the stream's mutex; `on_data`, `on_close` and the posted reply of a stream run on its io
thread, one after the other. A std::string is a sequence of characters, held below 256 where the
code computes with its bytes.

## Findings

- **A response head can follow the end of a stream.** The posted reply tests `closed_` and the status, not
  `error_`. It is saved by `error()` storing the error code as the status, which works only for codes
  below 100. `include/ert/http2comm/Stream.hpp:90` takes that for granted, but nothing bounds the 32-bit
  code given to `on_close`, and section 7 of RFC 7540 allows unknown codes. With a code of 100 or more that
  arrives between the check of `error_` and the run of the posted reply, that reply writes a head with the
  code as its status. `StreamSafety.HeadAfterEndIffLargeCode` states that some run does for exactly these
  codes, and `StreamSafety.HeadFollowsIffReplyUnderWay` at which moments of a run it can still happen.
- **A late timer is counted.** A timer handler already queued when the response ends survives the
  cancellation: the callback is not called again, but the timed-out counter and `responseTimeout()` still
  see the request (`RequestProtocol.LateTimerCounted`). `RequestProtocol.CountedLateIffQueued` states when
  this can happen, and `ClientRun.Conservation` that these requests are all that the counter has beyond
  the callbacks given -2.
- **`streamError` is not passed the stream's id**, as its documentation says, but the server-wide counter
  (`ServerRun.StreamErrorIdOfAnother`). `ServerRun.StreamErrorIdIsLatest` states when the two agree.
- **An early connect is lost.** `reconnect` stores NOT_OPEN after the callbacks of the new session are in
  place, so a connection reported before that store goes unnoticed (`Reconnect.EarlyConnectUnnoticed`).
  `Reconnect.ReconnectNotices` states which reports are noticed.
- **A delayed request cannot reconnect.** It runs on the thread of the io context, where it waits for a
  connection that only that thread could report (`ClientRun.DelayedRefusedRun`, `ClientRun.DelayedIsRefused`).
  Every other request that reconnects can succeed (`ClientRun.ReconnectsIffNotDelayed`).
- **A timer wait can begin after the close.** `on_close` cancels the wait it finds, not one that `commit`
  starts later (`StreamSafety.ClosedStreamWaits`); `StreamSafety.WaitAfterCloseIff` states when one can.
- **An aborted pre-send delay drops the request.** `asyncSend` then never calls the callback, and the
  blocking `send` never returns (`RequestProtocol.ExactlyOnceAtRest`, `BlockingSend.SendReturnsFirstOutcome`).
  Nothing in the repository cancels that timer.
- **Decoding in pieces is not decoding the whole** when the cut falls inside an escape
  (`UrlCodec.DecodeInPieces`), and `decode` reads `+` as a space, which `encode` never writes
  (`UrlCodec.EncodedHasNoPlus`).

## Model

| member | source | states |
|---|---|---|
| RequestProtocol.RequestTask.InvokeCallback | src/Http2Client.cpp:254-257 | the callback is called with the answer unless the flag says it was called already |
| RequestProtocol.RequestTask.TimerCancel | src/Http2Client.cpp:281-283 | cancelling stops a wait that has not expired and leaves the queued handler of one that has |
| RequestProtocol.RequestTask.Submit | src/Http2Client.cpp:210-292 | the posted handler arms the timer; a failed submit cancels it and answers -3 |
| RequestProtocol.RequestTask.OnTimer | src/Http2Client.cpp:230-260 | an expired timer marks the request timed out and answers -2; an aborted one does nothing |
| RequestProtocol.RequestTask.OnResponse | src/Http2Client.cpp:294-356 | a response is listened to only if the request has not timed out |
| RequestProtocol.RequestTask.OnData | src/Http2Client.cpp:323-355 | a chunk is appended; the end of data cancels the timer and answers with all of it |
| RequestProtocol.RequestTask.OnClose | src/Http2Client.cpp:358-376 | a close before the time-out cancels the timer and answers -4 |
| RequestProtocol.StepKeepsInv | src/Http2Client.cpp:147-378 | every step keeps the invariant that ties the flags, the timer wait and the calls of the callback |
| RequestProtocol.CallbackAtMostOnce | src/Http2Client.cpp:210-377 | in every run the callback is called at most once, and until then a caller step, the submit or an uncancelled timer wait is pending |
| RequestProtocol.ExactlyOnceAtRest | src/Http2Client.cpp:380-426 | with nothing pending the callback was called exactly once, if and only if the pre-send wait was not aborted |
| RequestProtocol.FirstTerminalWins | src/Http2Client.cpp:230-376 | the first of submit failure, expiry, end of data, close and refusal alone fixes the answer; a response carries every chunk before its end, in order |
| RequestProtocol.CallsFollowEvents | src/Http2Client.cpp:230-376 | the calls of the callback equal the outcome read off the events alone |
| RequestProtocol.DataFollowsEvents | src/Http2Client.cpp:326-330 | the gathered data is the concatenation of all chunks handed over, and the status the last one received |
| RequestProtocol.LateResponseIgnored | src/Http2Client.cpp:297-303 | after a time-out no response is listened to that was not already, and nothing is gathered from it |
| RequestProtocol.ListensIffTimely | src/Http2Client.cpp:230-303 | a request is marked timed out exactly once its timer handler has run, and its data is listened to exactly if a response started before that |
| RequestProtocol.PhaseFollowsSteps | src/Http2Client.cpp:158-207 | each point of a request is reached by exactly the steps that lead to it, in order: one check, or a check, a reconnect and a second check, then the counter, then the callback or the post and the submit |
| RequestProtocol.ChecksDecide | src/Http2Client.cpp:158-197 | a request is refused exactly after a second check that failed, and sent exactly after a check that found the connection open |
| RequestProtocol.ConnectionErrorIffCheckFailed | src/Http2Client.cpp:167-178 | at rest the callback was given -1 if and only if the second check failed |
| RequestProtocol.ComesToRest | src/Http2Client.cpp:147-426 | a request takes at most eleven steps of its own, and has one to take exactly while something is pending |
| RequestProtocol.TimesOutLaterIffReady | src/Http2Client.cpp:230-257 | an answered request that is not timed out is so in some continuation if and only if the expired handler of its timer is queued |
| RequestProtocol.CountedLateIffQueued | src/Http2Client.cpp:281-342 | after the event that answers, some continuation counts a time-out although another answer was given, if and only if the timer handler was queued by then, is not itself the answer, and outlives a cancellation |
| RequestProtocol.LateTimerCounted | src/Http2Client.cpp:230-257 | a run that answers with a response of status 200 and is then counted as timed out |
| ClientRun.StepKeepsCounts | src/Http2Client.cpp:169-198 | every step keeps each counter equal to the requests that have reached its place |
| ClientRun.Conservation | src/Http2Client.cpp:158-257 | sent + unsent + undecided = calls in every state; timed-out counter = callbacks given -2 + requests timed out after another answer <= sent; none of the latter if cancelling always stops the timer |
| ClientRun.ConservationAtRest | src/Http2Client.cpp:158-197 | at rest sent + unsent = calls, unsent = callbacks given -1, sent = callbacks given anything else |
| ClientRun.EachRequestRunsAlone | src/Http2Client.cpp:207-378 | however the requests of a client interleave, each is in the state its own events lead to |
| ClientRun.EveryCallbackFirstTerminal | src/Http2Client.cpp:230-376 | in every run of a client each callback is given what the first terminal event of its own request says |
| ClientRun.SilentWithoutMetrics | src/Http2Client.cpp:170-189 | without metrics no counter moves |
| ClientRun.ChecksSeeReports | src/Http2Client.cpp:158-292 | a check finds the connection open exactly if a connect report still stands, with no loss and no failed submit of any request since; a submit is accepted only then |
| ClientRun.OneDelayedAtATime | src/Http2Client.cpp:399-424 | at most one delayed request is inside async_send, since they all run on the io thread |
| ClientRun.DelayedIsRefused | src/Http2Client.cpp:158-180 | a delayed request that finds the connection not open finds it not open after its reconnect too, in every run of a client |
| ClientRun.DelayedGetsConnectionError | src/Http2Client.cpp:389-425 | so once such a request is at rest, its callback was given -1 and nothing else |
| ClientRun.ReconnectsIffNotDelayed | src/Http2Client.cpp:158-197 | a request that reconnects finds the connection open and is counted sent in some continuation if and only if it was not delayed, whatever the other requests of the client are doing |
| ClientRun.DelayedRefusedRun | src/Http2Client.cpp:389-425 | a run in which a delayed request reconnects in vain and is answered -1 |
| BlockingSend.CallbackWrapper.Invoke | src/Http2Client.cpp:443-458 | an invocation sets the promise only if it finds the flag clear |
| BlockingSend.PromiseSetByWinner | src/Http2Client.cpp:441-458 | under any interleaving the promise is set at most once, by the invocation whose exchange came first |
| BlockingSend.PromiseSetAtRest | src/Http2Client.cpp:437-458 | at rest the promise is set if and only if the callback was invoked |
| BlockingSend.SendReturnsFirstOutcome | src/Http2Client.cpp:429-465 | the promise of the blocking send is set if and only if the pre-send wait was not aborted, and then to the answer of the first terminal event |
| Reconnect.Http2Connection.Reconnect | src/Http2Connection.cpp:119-137 | whatever the session reports and when, reconnecting succeeds if and only if a session is created and the last report after the store of NOT_OPEN is a connection |
| Reconnect.Http2Connection.Deliver | src/Http2Connection.cpp:83-95 | after a series of reports the status is that of the last one, and unchanged if there is none |
| Reconnect.StepKeepsInv | src/Http2Client.cpp:131-145 | every step keeps the lock exclusive and every reconnect but the last accounted for |
| Reconnect.ReconnectBound | src/Http2Client.cpp:131-145 | at most one thread reconnects at a time; reconnects begun in a run <= 1 + those that ended not OPEN + losses of an open connection between them |
| Reconnect.OpenIffInForce | src/Http2Connection.cpp:119-149 | while a thread awaits the connection, the status is OPEN if and only if some connect report has neither a loss nor that thread's store of NOT_OPEN after it |
| Reconnect.ReconnectNotices | src/Http2Connection.cpp:128-136 | among any number of threads, a reconnect returns true exactly when such a report is in force where it reads the status |
| Reconnect.ReturnsWhatItRead | src/Http2Connection.cpp:119-137 | in every run a thread about to return has for its last step a failed creation or its reading of the status, and returns true exactly if a report was in force there |
| Reconnect.ReturnsAfterLast | src/Http2Connection.cpp:119-137 | and after such a last step it does return, false for a failed creation |
| Reconnect.StatusIsStoredLast | src/Http2Connection.cpp:83-149 | the status is the one stored last: OPEN by a connect report, NOT_OPEN by a reconnect, CLOSED by a reconnect or a loss |
| Reconnect.EarlyConnectUnnoticed | src/Http2Connection.cpp:127-136 | from any status but OPEN, a run in which the connection is reported, never lost, and the reconnect fails |
| ServerStream.Stream.Reception | src/Stream.cpp:75-157 | accepted if and only if all checks pass; otherwise the status is that of the first check that fails; then the delay is armed |
| ServerStream.Stream.ArmTimer | src/Stream.cpp:123-154 | the delay asked by receive, or else the first of responseDelayMs, arms the timer if there is an io context for it |
| ServerStream.Stream.Commit | src/Stream.cpp:159-195 | commit waits if a timer is needed, else discards on error, else posts the reply |
| ServerStream.Stream.OnTimer | src/Stream.cpp:163-181 | an aborted wait ends the stream's commit; an expired one asks for a further delay and commits again |
| ServerStream.Stream.RunReply | src/Stream.cpp:195-229 | the posted reply does nothing on a closed stream, cancels below 100 and writes a head otherwise |
| ServerStream.Stream.Error | src/Stream.cpp:270-276 | an error overwrites the status with its code |
| ServerStream.Stream.Close | src/Stream.cpp:278-283 | a normal close marks the stream closed |
| ServerStream.NegativeLimitNeverCongests | src/Http2Server.cpp:60-64 | with the clamped limit congestion is signalled only for a non-negative limit that a busy queue exceeds |
| StreamSafety.StepKeepsInv | src/Stream.cpp:70-289 | every step of every thread keeps the token, flag, status and log invariants |
| StreamSafety.StepKeepsStatus | src/Stream.cpp:185-289 | from the check of error_ on, the status of an errored stream is its error code |
| StreamSafety.StepKeepsThread | src/Http2Server.cpp:243-272 | a stream that its io thread processes itself is not closed before the thread has left the commit, and its request does not end after its close |
| StreamSafety.IoThreadRunsAlone | src/Http2Server.cpp:225-272 | on_data, on_close and the posted reply of a stream do not overlap |
| StreamSafety.OneCommitToken | src/Http2Server.cpp:243-255 | a stream whose request has ended stands at exactly one place, from numbering to reply or discard |
| StreamSafety.OneTrueReply | src/Stream.cpp:159-230 | at most one reply; before the end of the stream it carries the reception's status; nothing follows a normal close; the awaited timer exists |
| StreamSafety.ReplyCarriesStatus | src/Stream.cpp:207-223 | a reply before the end of the stream carries the status the run answered with, one after an error its code; it is a head from 100 on and a reset below |
| StreamSafety.AnswerOfRun | src/Stream.cpp:75-121 | a run answers with one status, the one that its state holds, as soon as the request has passed its reception, and with none before |
| StreamSafety.WaitAfterCloseIff | src/Stream.cpp:159-289 | after the beginning of the close a timer wait begins in some continuation if and only if one lay ahead: the stream is queued, before its answer, arming, expired or rescheduling, or committing with a timer needed |
| StreamSafety.ClosedStreamWaits | src/Stream.cpp:159-163 | a run in which a worker leaves a closed stream waiting on its timer |
| StreamSafety.CommitInSteps | src/Stream.cpp:159-189 | the two tests of commit as steps of their own, with nothing between them, decide as the method does |
| StreamSafety.ReplyNotLost | src/Stream.cpp:159-230 | with nothing in transit the reply was given or dropped, and it was given if no close has begun |
| StreamSafety.NeverStuck | src/Stream.cpp:159-289 | while anything is in transit or a close is under way, some thread can take a step or the awaited timer expire |
| StreamSafety.CloseCodeOfRun | src/Http2Server.cpp:258-272 | a run in which a close begins has that close's code and no other |
| StreamSafety.LateErrorOverwritesStatus | src/Stream.cpp:270-276 | for every code of 100 or more, a run that writes a head after the error |
| StreamSafety.HeadAfterEndIffLargeCode | src/Stream.cpp:185-222 | a response head can follow the end of the stream if and only if its error code is 100 or more |
| StreamSafety.HeadFollowsIffReplyUnderWay | src/Stream.cpp:185-222 | once an error has ended the stream, a head still follows in some continuation of the run if and only if its code is 100 or more and the reply has passed the check of error_ and not run yet |
| DelayLaw.PostedAtSumOfDelays | src/Stream.cpp:123-183 | in every run of a stream that is not closed, the waits before the reply take D + d_0 + ... + d_(k-1) together, with k the first answer that is not positive, and are exactly one for each positive delay |
| DelayLaw.PostedIffReleased | src/Stream.cpp:123-195 | from any point of such a run the reply is posted in some continuation if and only if some answer is not positive |
| DelayLaw.PostedAtOnceWithoutTimers | src/Stream.cpp:125-154 | without an io context for timers no such run waits at all |
| ServerRun.IdsAreOneToN | src/Http2Server.cpp:245-246 | the ids handed out are exactly 1..N, one for each stream whose request has ended |
| ServerRun.EveryRequestCounted | src/Stream.cpp:82-121 | N = accepted + errored + streams not yet past their checks, in every state, with accepted the receptions that passed and errored those that did not |
| ServerRun.CountersFollowChecks | src/Stream.cpp:107-119 | the accepted counter is the number of receptions that passed all checks and the errored counter that of the others; both stay at zero without metrics |
| ServerRun.EachStreamRunsAlone | src/Http2Server.cpp:222-273 | however the streams of a server interleave, each is in the state its own events lead to |
| ServerRun.NoHeadAfterEndAnywhere | src/Stream.cpp:185-222 | in every run of a server no stream writes a head after its end unless the end carried a code of 100 or more |
| ServerRun.StreamErrorIdIsLatest | src/Http2Server.cpp:262-266 | the id passed to streamError is the stream's own if and only if no other request ended after its own, or at all if its own never did |
| ServerRun.StreamErrorIdOfAnother | src/Http2Server.cpp:258-266 | for every error code, a run in which the stream numbered 1 is closed with it and 2 is passed |
| ChunkMaximum.MaximumCell.CompareExchangeWeak | src/Http2Server.cpp:239-239 | the exchange stores if the value is the expected one, may fail without cause, and reports what it saw |
| ChunkMaximum.MaximumCell.Update | src/Http2Server.cpp:237-240 | without interference the loop leaves the larger of the stored value and the length |
| ChunkMaximum.StepKeepsInv | src/Http2Server.cpp:237-240 | every step keeps the invariant and never lowers the stored value |
| ChunkMaximum.MaximumNeverDecreases | src/Http2Server.cpp:237-240 | the stored value never decreases along a run |
| ChunkMaximum.StoredByExchange | src/Http2Server.cpp:239-239 | the stored value changes only by an exchange that finds what it expects, to the length of its chunk |
| ChunkMaximum.StoredIsMaximum | src/Http2Server.cpp:237-240 | the stored value is zero or a submitted length, and the largest of all once every loop is out |
| ChunkMaximum.AttemptsBounded | src/Http2Server.cpp:238-239 | from the step that loads the value v a loop makes at most len - v exchanges, plus one for each failure without cause, and none if v >= len |
| UrlCodec.EncodeLoop | src/URLFunctions.cpp:55-73 | the encoding loop computes the recursive encoding |
| UrlCodec.DecodeLoop | src/URLFunctions.cpp:75-106 | the indexed decoding loop, with its truncated and malformed escapes, computes the recursive decoding |
| UrlCodec.DecodeUndoesEncode | src/URLFunctions.cpp:55-106 | decode(encode(s) + t) = s + decode(t) for all s and t |
| UrlCodec.EncodedHasNoPlus | src/URLFunctions.cpp:61-69 | encoded text holds no plus sign |
| UrlCodec.EncodedByte | src/URLFunctions.cpp:60-70 | letters, digits and the marks - . _ ~ are kept; any other byte becomes a percent sign and the two upper-case digits of its value |
| UrlCodec.DecodeWithoutEscapes | src/URLFunctions.cpp:84-102 | without a complete escape, text decodes byte by byte to itself, but for a space for each plus |
| UrlCodec.EscapeDecodes | src/URLFunctions.cpp:84-91 | an escape decodes to the byte of its digits, in either case of letters, whatever follows |
| UrlCodec.DecodeUndoesFormEncode | src/URLFunctions.cpp:84-103 | text encoded with a plus for each space decodes to its source as well |
| UrlCodec.EncodeInjective | src/URLFunctions.cpp:55-73 | texts with the same encoding are the same |
| UrlCodec.EncodeRestoresIffCanonical | src/URLFunctions.cpp:61-69 | encode(decode(t)) = t if and only if t is in canonical form |
| UrlCodec.CanonicalRepresentative | src/URLFunctions.cpp:55-106 | encode(decode(t)) decodes as t does, and is the one canonical text that does |
| UrlCodec.EncodedLength | src/URLFunctions.cpp:57-59 | encoding adds two bytes for each byte not unreserved, so three times the input is enough space |
| UrlCodec.DecodedLength | src/URLFunctions.cpp:77-78 | decoding removes two bytes for each escape, so the size of the input is enough space |
| UrlCodec.DecodeInPieces | src/URLFunctions.cpp:80-103 | decoding two pieces apart gives the decoding of the whole if and only if the cut is not inside an escape |
| PathPrefix.Find | src/URLFunctions.cpp:138-138 | the search finds the first occurrence, and none if there is none |
| PathPrefix.AddSlashes | src/URLFunctions.cpp:111-122 | normalization puts one slash at each end of a path that is not empty |
| PathPrefix.MatchPrefix | src/URLFunctions.cpp:108-140 | true if and only if the prefix is empty, or the path is not and the prefix's segments are a list prefix of the path's |
| PathPrefix.MatchesIffNormalPrefix | src/URLFunctions.cpp:137-139 | the segment-wise relation is the textual prefix relation on normal forms |
| PathPrefix.MatchesIsPreorder | src/URLFunctions.cpp:108-140 | matching is reflexive and transitive, and mutual exactly for equal normal forms |
| PathPrefix.SlashesOptional | src/URLFunctions.cpp:111-134 | a slash missing at either end changes neither the segments nor the matches of a path |
| PathPrefix.SegmentsOfPath | src/URLFunctions.cpp:108-140 | a path put together from segments has these segments, and matches a prefix if and only if the prefix's come first |
| PathPrefix.PathOfSegments | src/URLFunctions.cpp:111-122 | the segments of any path hold no slash and give back its normal form |
| PathPrefix.ExtensionMatches | src/URLFunctions.cpp:108-140 | text put after a path keeps the match if and only if it does not lengthen the last segment |
| PathPrefix.ApiPathSelectsVersion | src/Http2Server.cpp:122-135 | an API version matches its own paths and no version that it is a textual prefix of |
| PathPrefix.ApiPathSegments | src/Http2Server.cpp:122-135 | the API path has the name and the version for its segments |
| JsonCause.AppendEscaped | src/Http2Server.cpp:163-194 | one byte is escaped as the specification says |
| JsonCause.EscapeLoop | src/Http2Server.cpp:161-195 | the escaping loop computes the recursive escape |
| JsonCause.EscapeRoundTrip | src/Http2Server.cpp:158-196 | a reader of JSON strings gets the cause back and stops at the closing quote, whatever follows |
| JsonCause.BodyRoundTrip | src/Http2Server.cpp:154-197 | the body is {"cause":"..."} around the escaped cause and yields the cause, and is {} without one |
| JsonCause.BodyInjective | src/Http2Server.cpp:154-197 | different causes give different bodies |
| JsonCause.EscapeIsPrintable | src/Http2Server.cpp:186-192 | the escape holds no control byte and is at most six times as long |
| JsonCause.EscapedLength | src/Http2Server.cpp:163-193 | no byte is escaped without need: seven bytes take two, the other control bytes six, any other byte is printed as it is |
| JsonCause.EscapePreservesUtf8 | src/Http2Server.cpp:162-195 | the escape is well-formed UTF-8 if and only if the cause is |
| HeaderMap.Http2Headers.Emplace | src/Http2Headers.cpp:65-70 | a value that is not empty is added under its key, after those already there |
| HeaderMap.Http2Headers.AddAllowedMethods | src/Http2Headers.cpp:82-93 | the methods are added joined by a comma and a space, and not at all for an empty list |
| HeaderMap.Http2Headers.AddContentLength | src/Http2Headers.cpp:95-98 | the length is added as a decimal numeral |
| HeaderMap.ValuesInOrder | src/Http2Headers.cpp:65-70 | after any series of insertions a key holds its non-empty values in order, and is absent if it has none |
| HeaderMap.JoinedSplitsBack | src/Http2Headers.cpp:86-90 | a joined list is read back if and only if no token holds the separator |
| HeaderMap.DecimalRoundTrip | src/Http2Headers.cpp:95-98 | the numeral of a length reads as that length and has no leading zero |
| ErrorResponse.Http2Server.GetApiPath | src/Http2Server.cpp:122-135 | the API path is /name or /name/version, and empty without a name |
| ErrorResponse.Http2Server.ReceiveError | src/Http2Server.cpp:137-212 | status, body, counter and headers of the response are those of the error |
| ErrorResponse.Http2Server.BuildHeaders | src/Http2Server.cpp:204-211 | each header that has a value appears once with that value, and no other |
| ErrorResponse.HeadersConsistent | src/Http2Server.cpp:204-211 | version and location are as given; content-length reads as the body's length; no key twice or empty; Allow is there and is read back under exact conditions on the list |

## Left out

- ExactlyOnceAtRest: holds for runs without shutdown; the destructor stops the io context and drops handlers, which no event here models.
- ComesToRest: bounds the steps of a request and shows one is enabled while it is pending; that the io context eventually takes an enabled step is assumed.
- OneCommitToken: assumes what the transport promises, one end of data and one close for each stream, and nothing after the close; these are the guards of two events.
- EveryRequestCounted: counts an errored request as the default receiveError does, with metrics on; a derived class may override it.
- PostedAtSumOfDelays: takes an ideal clock, no close of the stream, and handlers that take no time; a wait lasts what its timer was set to.
- ReconnectBound: counts reconnects made through the client; `Http2Connection::reconnect` called from outside it would not take the client's lock.
- StoredIsMaximum: is about chunk lengths, since the code records those and not the lengths of whole bodies.
- nghttp2, Boost.Asio, TLS, sockets, `serve`, `join`, `stop` and AsioCompat: foreign code, present only as an environment that delivers events.
- QueueDispatcher is not part of this model; it is a bag that hands each stream to a worker.
- nghttp2's header_map is taken to be a multimap; the order of different keys is not modelled.
- Requests made from inside a callback: one not delayed is taken as made on a thread other than that of the io context.
- Object lifetime, raw `this` captures and C++ data races: objects are assumed alive and steps sequentially consistent.
- The headers and timestamps of a response, which the client hands over unread.
- Exceptions thrown by user callbacks, by moving a response, or by nghttp2 inside the posted reply.
- `appendData` and the request body handed to `receive`: a concatenation of chunks, as on the client.
- Request method, URL building and the ignored body of GET, DELETE and HEAD: one-branch facts.
- Logging, the counter of received responses, gauges, histograms, timestamps, `asString` functions and status tables.
- Locale effects in `isalnum` and `isxdigit`: the C locale is fixed, with bytes of 0x80 and above in neither class.
