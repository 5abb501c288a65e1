/** One client request (Http2Client::asyncSend and async_send with its nested handlers).

    The steps of async_send belong to the thread that calls it; for a delayed request that is the
    thread of the io context, inside the handler of the pre-send timer. The handlers after the post
    are on that thread one at a time, in any order the environment chooses. */
module RequestProtocol {
  import opened ByteStrings
  import opened Sequences

  // What the response callback is given.
  datatype Answer = Answer(body: Bytes, status: int)

  const CONNECTION_ERROR := Answer([], -1)
  const TIMEOUT := Answer([], -2)
  const SUBMIT_ERROR := Answer([], -3)
  const STREAM_CLOSED := Answer([], -4)

  // The wait on the expiry timer: Ready when its expired handler is queued, Aborting when cancelled.
  datatype Wait = Unarmed | Waiting | Ready | Aborting | Finished

  // Cancelling reaches a wait that has not expired. One that has expired keeps its queued handler,
  // unless `stops` says that this environment lets a cancellation overtake it.
  function Cancel(w: Wait, stops: bool): Wait {
    if w == Waiting || (stops && w == Ready) then Aborting else w
  }

  // The task record shared by the handlers, its timer, the response stream and the callback's calls.
  datatype Exchange = Exchange(
    data: Bytes, cbInvoked: bool, timedOut: bool, wait: Wait,
    listening: bool, status: int, calls: seq<Answer>)

  const FRESH := Exchange([], false, false, Unarmed, false, 0, [])

  // ---------- What each handler does to the exchange ----------

  function Invoke(x: Exchange, a: Answer): Exchange {
    if x.cbInvoked then x else x.(cbInvoked := true, calls := x.calls + [a])
  }

  function CancelTimer(x: Exchange, stops: bool): Exchange {
    x.(wait := Cancel(x.wait, stops))
  }

  function AfterSubmit(x: Exchange, ok: bool, expired: bool, stops: bool): Exchange {
    var armed := x.(wait := if expired then Ready else Waiting);
    if ok then armed else Invoke(CancelTimer(armed, stops), SUBMIT_ERROR)
  }

  function AfterTimer(x: Exchange, aborted: bool): Exchange {
    var y := x.(wait := Finished);
    if aborted || x.timedOut then y else Invoke(y.(timedOut := true), TIMEOUT)
  }

  function AfterResponse(x: Exchange, status: int): Exchange {
    x.(status := status, listening := x.listening || !x.timedOut)
  }

  function AfterData(x: Exchange, chunk: Bytes, stops: bool): Exchange {
    if chunk != [] then x.(data := x.data + chunk)
    else Invoke(CancelTimer(x, stops), Answer(x.data, x.status))
  }

  function AfterClose(x: Exchange, stops: bool): Exchange {
    if x.timedOut then x else Invoke(CancelTimer(x, stops), STREAM_CLOSED)
  }

  // ---------- The handlers themselves ----------

  class RequestTask {
    const cancelStops: bool
    var data: Bytes
    var cbInvoked: bool
    var timedOut: bool
    var wait: Wait
    var listening: bool
    var status: int
    var calls: seq<Answer>

    constructor (cancelStops: bool)
      ensures this.cancelStops == cancelStops && Value() == FRESH
    {
      this.cancelStops := cancelStops;
      data, cbInvoked, timedOut, wait := [], false, false, Unarmed;
      listening, status, calls := false, 0, [];
    }

    function Value(): Exchange
      reads this
    {
      Exchange(data, cbInvoked, timedOut, wait, listening, status, calls)
    }

    method InvokeCallback(a: Answer)
      modifies this
      ensures Value() == Invoke(old(Value()), a)
    {
      if !cbInvoked {
        cbInvoked := true;
        calls := calls + [a];
      }
    }

    method TimerCancel()
      modifies this
      ensures Value() == CancelTimer(old(Value()), cancelStops)
    {
      if wait == Waiting || (cancelStops && wait == Ready) {
        wait := Aborting;
      }
    }

    // The posted handler: arm the timer, then submit.
    method Submit(ok: bool, expired: bool)
      modifies this
      ensures Value() == AfterSubmit(old(Value()), ok, expired, cancelStops)
    {
      wait := if expired then Ready else Waiting;
      if !ok {
        TimerCancel();
        InvokeCallback(SUBMIT_ERROR);
      }
    }

    method OnTimer(aborted: bool)
      modifies this
      ensures Value() == AfterTimer(old(Value()), aborted)
    {
      wait := Finished;
      if !aborted {
        if !timedOut {
          timedOut := true;
          InvokeCallback(TIMEOUT);
        }
      }
    }

    method OnResponse(status: int)
      modifies this
      ensures Value() == AfterResponse(old(Value()), status)
    {
      this.status := status;
      if timedOut {
        return;
      }
      listening := true;
    }

    method OnData(chunk: Bytes)
      modifies this
      ensures Value() == AfterData(old(Value()), chunk, cancelStops)
    {
      if |chunk| > 0 {
        data := data + chunk;
      } else {
        TimerCancel();
        InvokeCallback(Answer(data, status));
      }
    }

    method OnClose()
      modifies this
      ensures Value() == AfterClose(old(Value()), cancelStops)
    {
      if !timedOut {
        TimerCancel();
        InvokeCallback(STREAM_CLOSED);
      }
    }
  }

  // ---------- Runs of one request ----------

  datatype Phase =
    | Delaying | DelayAborted                       // the pre-send timer of asyncSend
    | FirstCheck | Reconnecting | SecondCheck       // async_send until a connection is found
    | CountingUnsent | Refusing | Refused
    | CountingSent | Posting | Submitting           // up to the posted handler
    | Failed | Streaming                            // submit refused, submit accepted

  datatype Request = Request(delayed: bool, phase: Phase, x: Exchange)

  function Start(delayed: bool): Request {
    Request(delayed, if delayed then Delaying else FirstCheck, FRESH)
  }

  datatype Event =
    | DelayExpires | DelayAborts
    | CheckFirst(open: bool) | Reconnected | CheckSecond(open: bool)
    | CountUnsent | Refuse | CountSent | Post
    | Submit(ok: bool, expired: bool)
    | Expire | TimerRuns | AbortRuns
    | Response(code: int) | Data(chunk: Bytes) | Close

  predicate Enabled(r: Request, e: Event) {
    match e
    case DelayExpires => r.phase == Delaying
    case DelayAborts => r.phase == Delaying
    case CheckFirst(_) => r.phase == FirstCheck
    case Reconnected => r.phase == Reconnecting
    case CheckSecond(_) => r.phase == SecondCheck
    case CountUnsent => r.phase == CountingUnsent
    case Refuse => r.phase == Refusing
    case CountSent => r.phase == CountingSent
    case Post => r.phase == Posting
    case Submit(_, _) => r.phase == Submitting
    case Expire => r.x.wait == Waiting
    case TimerRuns => r.x.wait == Ready
    case AbortRuns => r.x.wait == Aborting
    case Response(code) => r.phase == Streaming && code >= 0
    case Data(_) => r.phase == Streaming && r.x.listening
    case Close => r.phase == Streaming
  }

  function Apply(r: Request, e: Event, stops: bool): Request
    requires Enabled(r, e)
  {
    match e
    case DelayExpires => r.(phase := FirstCheck)
    case DelayAborts => r.(phase := DelayAborted)
    case CheckFirst(open) => r.(phase := if open then CountingSent else Reconnecting)
    case Reconnected => r.(phase := SecondCheck)
    case CheckSecond(open) => r.(phase := if open then CountingSent else CountingUnsent)
    case CountUnsent => r.(phase := Refusing)
    case Refuse => r.(phase := Refused, x := r.x.(calls := r.x.calls + [CONNECTION_ERROR]))
    case CountSent => r.(phase := Posting)
    case Post => r.(phase := Submitting)
    case Submit(ok, expired) =>
      r.(phase := if ok then Streaming else Failed, x := AfterSubmit(r.x, ok, expired, stops))
    case Expire => r.(x := r.x.(wait := Ready))
    case TimerRuns => r.(x := AfterTimer(r.x, false))
    case AbortRuns => r.(x := AfterTimer(r.x, true))
    case Response(code) => r.(x := AfterResponse(r.x, code))
    case Data(chunk) => r.(x := AfterData(r.x, chunk, stops))
    case Close => r.(x := AfterClose(r.x, stops))
  }

  // The state after a run; an event that is not enabled would change nothing.
  function After(delayed: bool, t: seq<Event>, stops: bool): Request {
    if t == [] then Start(delayed)
    else
      var r, e := After(delayed, Front(t), stops), Last(t);
      if Enabled(r, e) then Apply(r, e, stops) else r
  }

  // A run of a request: every event is enabled where it happens.
  predicate Execution(delayed: bool, t: seq<Event>, stops: bool) {
    t == [] || (Execution(delayed, Front(t), stops) && Enabled(After(delayed, Front(t), stops), Last(t)))
  }

  // ---------- The outcome of a run, read off its events alone ----------

  predicate Terminal(e: Event) {
    e == Refuse || (e.Submit? && !e.ok) || e == TimerRuns || e == Data([]) || e == Close
  }

  // Every chunk handed over, in order.
  function Chunks(t: seq<Event>): Bytes {
    if t == [] then [] else Chunks(Front(t)) + (if Last(t).Data? then Last(t).chunk else [])
  }

  function LastCode(t: seq<Event>): int {
    if t == [] then 0 else if Last(t).Response? then Last(t).code else LastCode(Front(t))
  }

  function FirstTerminal(t: seq<Event>): (k: nat)
    ensures k <= |t| && forall j | 0 <= j < k :: !Terminal(t[j])
    ensures k < |t| ==> Terminal(t[k])
  {
    if t == [] then 0
    else
      var k := FirstTerminal(Front(t));
      if k < |t| - 1 || Terminal(Last(t)) then k else |t|
  }

  function AnswerAt(t: seq<Event>, k: nat): Answer
    requires k < |t| && Terminal(t[k])
  {
    match t[k]
    case Refuse => Answer([], -1)
    case TimerRuns => Answer([], -2)
    case Data(_) => Answer(Chunks(t[..k]), LastCode(t[..k]))
    case Close => Answer([], -4)
    case _ => Answer([], -3)
  }

  function Outcome(t: seq<Event>): seq<Answer> {
    var k := FirstTerminal(t);
    if k < |t| then [AnswerAt(t, k)] else []
  }

  // ---------- The invariant ----------

  predicate Early(p: Phase) {
    p != Refused && p != Failed && p != Streaming
  }

  // Something of the request itself is still to run: a step of the caller, a posted handler or a timer.
  predicate Pending(r: Request) {
    (Early(r.phase) && r.phase != DelayAborted) || r.x.wait in {Waiting, Ready, Aborting}
  }

  ghost predicate Inv(r: Request, stops: bool) {
    var x := r.x;
    && (Early(r.phase) ==> x == FRESH)
    && (r.phase == Refused ==> x == FRESH.(calls := [CONNECTION_ERROR]))
    && (r.phase == Failed || r.phase == Streaming ==>
          && x.wait != Unarmed
          && (x.cbInvoked ==> x.wait != Waiting)
          && |x.calls| == (if x.cbInvoked then 1 else 0)
          && (!x.cbInvoked ==> r.phase == Streaming && x.wait in {Waiting, Ready})
          && (x.timedOut ==> x.cbInvoked && x.wait == Finished)
          && x.status >= 0
          && (|x.calls| == 1 ==> x.calls[0].status != -1)
          && (stops && x.cbInvoked ==> x.wait in {Aborting, Finished})
          && (stops && x.timedOut ==> x.calls == [TIMEOUT])
          && (|x.calls| == 1 && x.calls[0].status == -2 ==> x.calls[0] == TIMEOUT && x.timedOut))
  }

  lemma StepKeepsInv(r: Request, e: Event, stops: bool)
    requires Inv(r, stops) && Enabled(r, e)
    ensures Inv(Apply(r, e, stops), stops)
  {}

  lemma {:induction false} RunKeepsInv(delayed: bool, t: seq<Event>, stops: bool)
    requires Execution(delayed, t, stops)
    ensures Inv(After(delayed, t, stops), stops)
  {
    if t != [] {
      RunKeepsInv(delayed, Front(t), stops);
      StepKeepsInv(After(delayed, Front(t), stops), Last(t), stops);
    }
  }

  /** The callback never runs twice, and until it runs something that will run it is pending:
      a step of the caller, the posted submit, or a timer wait that is not cancelled. */
  lemma CallbackAtMostOnce(delayed: bool, t: seq<Event>, stops: bool)
    requires Execution(delayed, t, stops)
    ensures var r := After(delayed, t, stops);
            |r.x.calls| <= 1 &&
            (r.x.calls == [] ==> Early(r.phase) || r.x.wait in {Waiting, Ready})
  {
    RunKeepsInv(delayed, t, stops);
  }

  /** Once nothing is pending the callback has run exactly once, unless the pre-send wait was aborted. */
  lemma ExactlyOnceAtRest(delayed: bool, t: seq<Event>, stops: bool)
    requires Execution(delayed, t, stops) && !Pending(After(delayed, t, stops))
    ensures |After(delayed, t, stops).x.calls| == 1 <==> DelayAborts !in t
    ensures |After(delayed, t, stops).x.calls| == 0 <==> DelayAborts in t
  {
    RunKeepsInv(delayed, t, stops);
    AbortShowsInPhase(delayed, t, stops);
  }

  lemma {:induction false} AbortShowsInPhase(delayed: bool, t: seq<Event>, stops: bool)
    requires Execution(delayed, t, stops)
    ensures After(delayed, t, stops).phase == DelayAborted <==> DelayAborts in t
  {
    if t != [] {
      RunKeepsInv(delayed, Front(t), stops);
      AbortShowsInPhase(delayed, Front(t), stops);
      assert t == Front(t) + [Last(t)];
    }
  }

  // ---------- The first terminal event decides ----------

  lemma OutcomeOfLonger(t: seq<Event>)
    requires t != []
    ensures Outcome(Front(t)) != [] ==> Outcome(t) == Outcome(Front(t))
    ensures Outcome(Front(t)) == [] ==> Outcome(t) == if Terminal(Last(t)) then [AnswerAt(t, |t| - 1)] else []
    ensures t[..|t| - 1] == Front(t)
  {
    var k := FirstTerminal(Front(t));
    if k < |t| - 1 {
      assert t[..k] == Front(t)[..k];
    }
  }

  lemma StepData(r: Request, e: Event, stops: bool)
    requires Inv(r, stops) && Enabled(r, e)
    ensures var x := Apply(r, e, stops).x;
            x.data == (if e.Data? then r.x.data + e.chunk else r.x.data) &&
            x.status == (if e.Response? then e.code else r.x.status)
  {
    assert r.x.data + [] == r.x.data;
  }

  lemma {:induction false} DataFollowsEvents(delayed: bool, t: seq<Event>, stops: bool)
    requires Execution(delayed, t, stops)
    ensures var x := After(delayed, t, stops).x; x.data == Chunks(t) && x.status == LastCode(t)
  {
    if t != [] {
      var r, e := After(delayed, Front(t), stops), Last(t);
      DataFollowsEvents(delayed, Front(t), stops);
      RunKeepsInv(delayed, Front(t), stops);
      StepData(r, e, stops);
      assert r.x.data + [] == r.x.data;
    }
  }

  // An event runs the callback exactly when it is terminal and no earlier one has run it.
  lemma StepCalls(r: Request, e: Event, stops: bool)
    requires Inv(r, stops) && Enabled(r, e)
    ensures var calls := Apply(r, e, stops).x.calls;
            if r.x.calls != [] || !Terminal(e) then calls == r.x.calls
            else calls == [match e
                           case Refuse => CONNECTION_ERROR
                           case TimerRuns => TIMEOUT
                           case Data(_) => Answer(r.x.data, r.x.status)
                           case Close => STREAM_CLOSED
                           case _ => SUBMIT_ERROR]
  {
    assert r.x.calls == [] ==> r.x.calls + [CONNECTION_ERROR] == [CONNECTION_ERROR];
  }

  // The calls of the callback are what the events say.
  lemma {:induction false} CallsFollowEvents(delayed: bool, t: seq<Event>, stops: bool)
    requires Execution(delayed, t, stops)
    ensures After(delayed, t, stops).x.calls == Outcome(t)
  {
    if t != [] {
      CallsFollowEvents(delayed, Front(t), stops);
      DataFollowsEvents(delayed, Front(t), stops);
      RunKeepsInv(delayed, Front(t), stops);
      OutcomeOfLonger(t);
      StepCalls(After(delayed, Front(t), stops), Last(t), stops);
    }
  }

  /** First terminal event wins: it alone fixes the one value the callback is given, and no event
      before it has run the callback. A response carries every chunk delivered before its end. */
  lemma FirstTerminalWins(delayed: bool, t: seq<Event>, k: nat, stops: bool)
    requires Execution(delayed, t, stops)
    requires k < |t| && Terminal(t[k]) && forall j | 0 <= j < k :: !Terminal(t[j])
    ensures After(delayed, t, stops).x.calls == [AnswerAt(t, k)]
  {
    CallsFollowEvents(delayed, t, stops);
    var f := FirstTerminal(t);
    assert f == k;
  }

  /** A response that starts after the time-out is ignored: nothing is gathered from it any more. */
  lemma {:induction false} LateResponseIgnored(delayed: bool, t: seq<Event>, n: nat, stops: bool)
    requires n <= |t| && Execution(delayed, t, stops)
    ensures Execution(delayed, t[..n], stops)
    ensures var x, y := After(delayed, t[..n], stops).x, After(delayed, t, stops).x;
            x.timedOut && !x.listening ==> y.timedOut && !y.listening && y.data == x.data
    decreases |t|
  {
    if n == |t| {
      assert t[..n] == t;
    } else {
      assert Front(t)[..n] == t[..n];
      LateResponseIgnored(delayed, Front(t), n, stops);
      RunKeepsInv(delayed, Front(t), stops);
      var r := After(delayed, Front(t), stops);
      if r.x.timedOut && !r.x.listening {
        StepOfTimedOut(r, Last(t), stops);
      }
    }
  }

  lemma StepOfTimedOut(r: Request, e: Event, stops: bool)
    requires Inv(r, stops) && Enabled(r, e) && r.x.timedOut && !r.x.listening
    ensures var y := Apply(r, e, stops).x; y.timedOut && !y.listening && y.data == r.x.data
  {}

  /** The request is marked timed out exactly once its timer's handler has run, and listens to the
      response exactly once one has started before that. */
  lemma {:induction false} ListensIffTimely(delayed: bool, t: seq<Event>, stops: bool)
    requires Execution(delayed, t, stops)
    ensures After(delayed, t, stops).x.timedOut <==> TimerRuns in t
    ensures After(delayed, t, stops).x.listening <==> TimelyResponse(t)
  {
    if t != [] {
      ListensIffTimely(delayed, Front(t), stops);
      RunKeepsInv(delayed, Front(t), stops);
      StepListens(After(delayed, Front(t), stops), Last(t), stops);
      assert t == Front(t) + [Last(t)];
    }
  }

  // Some response starts before the timer's handler runs.
  predicate TimelyResponse(t: seq<Event>) {
    t != [] && (TimelyResponse(Front(t)) || (Last(t).Response? && TimerRuns !in Front(t)))
  }

  lemma StepListens(r: Request, e: Event, stops: bool)
    requires Inv(r, stops) && Enabled(r, e)
    ensures var x := Apply(r, e, stops).x;
            && (x.timedOut <==> r.x.timedOut || e == TimerRuns)
            && (x.listening <==> r.x.listening || (e.Response? && !r.x.timedOut))
  {}

  // ---------- The way to a submit, and to the connection error ----------

  // What async_send itself does, and the wait before it.
  predicate OfCaller(e: Event) {
    e.DelayExpires? || e.DelayAborts? || e.CheckFirst? || e.Reconnected? || e.CheckSecond? || e.CountUnsent? ||
    e.Refuse? || e.CountSent? || e.Post? || e.Submit?
  }

  function CallerSteps(t: seq<Event>): seq<Event> {
    if t == [] then [] else CallerSteps(Front(t)) + if OfCaller(Last(t)) then [Last(t)] else []
  }

  // The steps that lead to each phase, in order; a request may find the connection at either check.
  ghost predicate Leads(delayed: bool, u: seq<Event>, p: Phase) {
    var first := if delayed then [DelayExpires] else [];
    match p
    case Delaying => delayed && u == []
    case DelayAborted => delayed && u == [DelayAborts]
    case FirstCheck => u == first
    case Reconnecting => u == first + [CheckFirst(false)]
    case SecondCheck => u == first + [CheckFirst(false), Reconnected]
    case CountingUnsent => u == first + [CheckFirst(false), Reconnected, CheckSecond(false)]
    case Refusing => u == first + [CheckFirst(false), Reconnected, CheckSecond(false), CountUnsent]
    case Refused => u == first + [CheckFirst(false), Reconnected, CheckSecond(false), CountUnsent, Refuse]
    case CountingSent => Found(first, u, [])
    case Posting => Found(first, u, [CountSent])
    case Submitting => Found(first, u, [CountSent, Post])
    case Failed => exists expired :: Found(first, u, [CountSent, Post, Submit(false, expired)])
    case Streaming => exists expired :: Found(first, u, [CountSent, Post, Submit(true, expired)])
  }

  ghost predicate Found(first: seq<Event>, u: seq<Event>, rest: seq<Event>) {
    u == first + [CheckFirst(true)] + rest
    || u == first + [CheckFirst(false), Reconnected, CheckSecond(true)] + rest
  }

  /** Each phase is reached by exactly the steps of async_send that lead to it, and in that order. */
  lemma {:induction false} PhaseFollowsSteps(delayed: bool, t: seq<Event>, stops: bool)
    requires Execution(delayed, t, stops)
    ensures Leads(delayed, CallerSteps(t), After(delayed, t, stops).phase)
  {
    if t != [] {
      PhaseFollowsSteps(delayed, Front(t), stops);
      StepLeads(delayed, CallerSteps(Front(t)), After(delayed, Front(t), stops), Last(t), stops);
    }
  }

  lemma StepLeads(delayed: bool, u: seq<Event>, r: Request, e: Event, stops: bool)
    requires Leads(delayed, u, r.phase) && Enabled(r, e)
    ensures Leads(delayed, u + (if OfCaller(e) then [e] else []), Apply(r, e, stops).phase)
  {
    if !OfCaller(e) {
      assert u + [] == u;
    }
  }

  // Counted unsent or about to be, and counted sent or about to be.
  predicate Unsendable(p: Phase) {
    p == CountingUnsent || p == Refusing || p == Refused
  }

  predicate Sendable(p: Phase) {
    p == CountingSent || p == Posting || p == Submitting || p == Failed || p == Streaming
  }

  lemma StepDecides(r: Request, e: Event, stops: bool)
    requires Enabled(r, e)
    ensures var p := Apply(r, e, stops).phase;
            && (Unsendable(p) <==> Unsendable(r.phase) || e == CheckSecond(false))
            && (Sendable(p) <==> Sendable(r.phase) || e == CheckFirst(true) || e == CheckSecond(true))
            && (CountedAsSent(p) <==> CountedAsSent(r.phase) || e == CountSent)
  {}

  predicate CountedAsSent(p: Phase) {
    Sendable(p) && p != CountingSent
  }

  /** A request is refused exactly after a second check that failed, and sent exactly after a check that
      found the connection open. */
  lemma {:induction false} ChecksDecide(delayed: bool, t: seq<Event>, stops: bool)
    requires Execution(delayed, t, stops)
    ensures CheckSecond(false) in t <==> Unsendable(After(delayed, t, stops).phase)
    ensures CheckFirst(true) in t || CheckSecond(true) in t <==> Sendable(After(delayed, t, stops).phase)
    ensures CountSent in t <==> CountedAsSent(After(delayed, t, stops).phase)
  {
    if t != [] {
      ChecksDecide(delayed, Front(t), stops);
      StepDecides(After(delayed, Front(t), stops), Last(t), stops);
      assert t == Front(t) + [Last(t)];
    }
  }

  /** At rest, the callback was given the connection error exactly if the second check failed. */
  lemma ConnectionErrorIffCheckFailed(delayed: bool, t: seq<Event>, stops: bool)
    requires Execution(delayed, t, stops) && !Pending(After(delayed, t, stops))
    ensures After(delayed, t, stops).x.calls == [Answer([], -1)] <==> CheckSecond(false) in t
  {
    RunKeepsInv(delayed, t, stops);
    ChecksDecide(delayed, t, stops);
  }

  // ---------- The request comes to rest by itself ----------

  // Events of the request itself, as opposed to what the peer sends.
  predicate Own(e: Event) {
    !e.Response? && !e.Data? && !e.Close?
  }

  function WaitRank(w: Wait): nat {
    match w
    case Unarmed => 3
    case Waiting => 2
    case Ready => 1
    case Aborting => 1
    case Finished => 0
  }

  function Rank(r: Request): nat {
    match r.phase
    case Delaying => 11
    case FirstCheck => 10
    case Reconnecting => 9
    case SecondCheck => 8
    case CountingUnsent => 2
    case Refusing => 1
    case CountingSent => 6
    case Posting => 5
    case Submitting => 4
    case Failed => WaitRank(r.x.wait)
    case Streaming => WaitRank(r.x.wait)
    case _ => 0
  }

  function OwnEvents(t: seq<Event>): nat {
    if t == [] then 0 else OwnEvents(Front(t)) + if Own(Last(t)) then 1 else 0
  }

  lemma StepLowersRank(r: Request, e: Event, stops: bool)
    requires Inv(r, stops) && Enabled(r, e)
    ensures Rank(Apply(r, e, stops)) <= Rank(r) - if Own(e) then 1 else 0
  {}

  /** No run holds more than eleven events of the request itself, whatever the peer sends in between;
      and while something is pending, one such event is enabled. So every run that is not cut short
      comes to rest, where the callback has run exactly once. */
  lemma {:induction false} ComesToRest(delayed: bool, t: seq<Event>, stops: bool)
    requires Execution(delayed, t, stops)
    ensures OwnEvents(t) + Rank(After(delayed, t, stops)) <= 11
    ensures Pending(After(delayed, t, stops)) <==> exists e: Event :: Own(e) && Enabled(After(delayed, t, stops), e)
  {
    if t != [] {
      ComesToRest(delayed, Front(t), stops);
      RunKeepsInv(delayed, Front(t), stops);
      StepLowersRank(After(delayed, Front(t), stops), Last(t), stops);
    }
    RunKeepsInv(delayed, t, stops);
    PendingIffEnabled(After(delayed, t, stops), stops);
  }

  lemma PendingIffEnabled(r: Request, stops: bool)
    requires Inv(r, stops)
    ensures Pending(r) <==> exists e: Event :: Own(e) && Enabled(r, e)
  {
    if Pending(r) {
      var e := match r.phase
        case Delaying => DelayExpires
        case FirstCheck => CheckFirst(true)
        case Reconnecting => Reconnected
        case SecondCheck => CheckSecond(true)
        case CountingUnsent => CountUnsent
        case Refusing => Refuse
        case CountingSent => CountSent
        case Posting => Post
        case Submitting => Submit(true, false)
        case _ => if r.x.wait == Waiting then Expire else if r.x.wait == Ready then TimerRuns else AbortRuns;
      assert Own(e) && Enabled(r, e);
    }
  }

  // ---------- Timers that outlive the answer ----------

  predicate CountedLate(r: Request) {
    r.x.timedOut && r.x.calls != [TIMEOUT]
  }

  // The expired handler of the timer is queued by this event: during the submit, or after it.
  predicate QueuesTimer(e: Event) {
    e == Expire || (e.Submit? && e.expired)
  }

  predicate TimerQueued(t: seq<Event>) {
    t != [] && (TimerQueued(Front(t)) || QueuesTimer(Last(t)))
  }

  // Until the callback has run, the wait is Ready exactly if its handler was queued.
  lemma {:induction false} ReadyIffQueued(delayed: bool, t: seq<Event>, stops: bool)
    requires Execution(delayed, t, stops) && After(delayed, t, stops).x.calls == []
    ensures After(delayed, t, stops).x.wait == Ready <==> TimerQueued(t)
  {
    if t != [] {
      var r, e := After(delayed, Front(t), stops), Last(t);
      RunKeepsInv(delayed, Front(t), stops);
      StepCalls(r, e, stops);
      ReadyIffQueued(delayed, Front(t), stops);
      StepQueues(r, e, stops);
    }
  }

  lemma StepQueues(r: Request, e: Event, stops: bool)
    requires Inv(r, stops) && Enabled(r, e) && Apply(r, e, stops).x.calls == []
    ensures Apply(r, e, stops).x.wait == Ready <==> r.x.wait == Ready || QueuesTimer(e)
  {}

  // The event that answers leaves a queued handler in place, unless it is that handler itself.
  lemma AnswerLeavesQueued(r: Request, e: Event, stops: bool)
    requires Inv(r, stops) && Enabled(r, e)
    requires r.x.calls == [] && Apply(r, e, stops).x.calls != []
    ensures Apply(r, e, stops).x.wait == Ready <==>
            !stops && e != TimerRuns && (r.x.wait == Ready || QueuesTimer(e))
  {}

  // After the answer the calls stay, and without a queued handler the request never times out.
  lemma {:induction false} AnsweredStays(delayed: bool, t: seq<Event>, u: seq<Event>, stops: bool)
    requires Execution(delayed, t + u, stops) && After(delayed, t, stops).x.calls != []
    ensures var x, y := After(delayed, t, stops).x, After(delayed, t + u, stops).x;
            && y.calls == x.calls
            && (!x.timedOut && x.wait != Ready ==> !y.timedOut && y.wait != Ready)
    decreases |u|
  {
    if u == [] {
      assert t + u == t;
    } else {
      assert Front(t + u) == t + Front(u) && Last(t + u) == Last(u);
      AnsweredStays(delayed, t, Front(u), stops);
      RunKeepsInv(delayed, t + Front(u), stops);
      StepOfAnswered(After(delayed, t + Front(u), stops), Last(u), stops);
    }
  }

  lemma StepOfAnswered(r: Request, e: Event, stops: bool)
    requires Inv(r, stops) && Enabled(r, e) && r.x.calls != []
    ensures var y := Apply(r, e, stops).x;
            y.calls == r.x.calls && (!r.x.timedOut && r.x.wait != Ready ==> !y.timedOut && y.wait != Ready)
  {}

  /** A request whose callback has run, and that is not timed out, can still be counted as timed out
      exactly while the expired handler of its timer is queued. */
  lemma TimesOutLaterIffReady(delayed: bool, t: seq<Event>, stops: bool)
    requires Execution(delayed, t, stops)
    requires After(delayed, t, stops).x.calls != [] && !After(delayed, t, stops).x.timedOut
    ensures (exists u :: Execution(delayed, t + u, stops) && After(delayed, t + u, stops).x.timedOut)
            <==> After(delayed, t, stops).x.wait == Ready
  {
    if u :| Execution(delayed, t + u, stops) && After(delayed, t + u, stops).x.timedOut {
      AnsweredStays(delayed, t, u, stops);
    }
    RunKeepsInv(delayed, t, stops);
    if After(delayed, t, stops).x.wait == Ready {
      assert Front(t + [TimerRuns]) == t;
      assert After(delayed, t + [TimerRuns], stops).x.timedOut;
    }
  }

  /** Take a run up to the event that answers the request. In some continuation the request is counted
      as timed out, although its callback was given another answer, exactly when the timer's handler
      was queued by then, the answer is not that handler's own, and cancelling does not overtake it. */
  lemma CountedLateIffQueued(delayed: bool, t: seq<Event>, stops: bool)
    requires Execution(delayed, t, stops)
    requires t != [] && FirstTerminal(t) == |t| - 1
    ensures (exists u :: Execution(delayed, t + u, stops) && CountedLate(After(delayed, t + u, stops)))
            <==> !stops && Last(t) != TimerRuns && TimerQueued(t)
  {
    var r, e, q := After(delayed, Front(t), stops), Last(t), After(delayed, t, stops);
    CallsFollowEvents(delayed, Front(t), stops);
    CallsFollowEvents(delayed, t, stops);
    RunKeepsInv(delayed, Front(t), stops);
    OutcomeOfLonger(t);
    assert r.x.calls == [] && q.x.calls != [];
    ReadyIffQueued(delayed, Front(t), stops);
    AnswerLeavesQueued(r, e, stops);
    AnswerTimesOut(r, e, stops);
    if e != TimerRuns {
      TimesOutLaterIffReady(delayed, t, stops);
    }
    forall u | Execution(delayed, t + u, stops)
      ensures After(delayed, t + u, stops).x.calls == q.x.calls
    {
      AnsweredStays(delayed, t, u, stops);
    }
  }

  lemma AnswerTimesOut(r: Request, e: Event, stops: bool)
    requires Inv(r, stops) && Enabled(r, e)
    requires r.x.calls == [] && Apply(r, e, stops).x.calls != []
    ensures Apply(r, e, stops).x.timedOut <==> e == TimerRuns
    ensures Apply(r, e, stops).x.calls == [TIMEOUT] <==> e == TimerRuns
  {
    StepCalls(r, e, stops);
    var calls := Apply(r, e, stops).x.calls;
    assert calls[0].status == TIMEOUT.status <==> e == TimerRuns;
  }

  lemma Extend(delayed: bool, t: seq<Event>, e: Event, stops: bool) returns (longer: seq<Event>)
    requires Execution(delayed, t, stops) && Enabled(After(delayed, t, stops), e)
    ensures longer == t + [e] && Execution(delayed, longer, stops)
    ensures After(delayed, longer, stops) == Apply(After(delayed, t, stops), e, stops)
  {
    longer := t + [e];
    assert Front(longer) == t && Last(longer) == e;
  }

  // A request over an open connection, waiting for the end of a response with status 200.
  lemma UpToResponse() returns (t: seq<Event>)
    ensures Execution(false, t, false)
    ensures After(false, t, false) == Request(false, Streaming, Exchange([], false, false, Waiting, true, 200, []))
  {
    t := Extend(false, [], CheckFirst(true), false);
    assert After(false, t, false) == Request(false, CountingSent, FRESH);
    t := Extend(false, t, CountSent, false);
    assert After(false, t, false) == Request(false, Posting, FRESH);
    t := Extend(false, t, Post, false);
    assert After(false, t, false) == Request(false, Submitting, FRESH);
    t := Extend(false, t, Submit(true, false), false);
    assert After(false, t, false) == Request(false, Streaming, FRESH.(wait := Waiting));
    t := Extend(false, t, Response(200), false);
  }

  /** So a request can be answered with its response and then be counted as timed out. */
  lemma LateTimerCounted() returns (t: seq<Event>)
    ensures Execution(false, t, false)
    ensures After(false, t, false).x.timedOut && After(false, t, false).x.calls == [Answer([], 200)]
  {
    t := UpToResponse();
    t := Extend(false, t, Expire, false);
    assert After(false, t, false).x == Exchange([], false, false, Ready, true, 200, []);
    t := Extend(false, t, Data([]), false);
    assert After(false, t, false).x == Exchange([], true, false, Ready, true, 200, [Answer([], 200)]);
    t := Extend(false, t, TimerRuns, false);
  }
}
